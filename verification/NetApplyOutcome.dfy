/** What `net_apply` measures, when, and whether what it reports is so. */
module NetApplyOutcome {
  import opened Wrappers
  import opened NetworkManager
  import opened NetApply
  import opened NetApplySafety
  import opened NetApplyStranding
  import opened NetApplyPacing
  import CommandRunner

  // ----- The log tells the whole story -----

  /** One event, given NetworkManager's state after the one before. */
  predicate EventOk(e: Event, previous: Nm) {
    && e.start <= e.at <= e.end
    && (e.ran ==> e.end <= e.start + Timeout(e.request) + CommandRunner.DRAIN_GRACE)
    && (e.took ==> e.at <= e.start + Timeout(e.request))
    && (e.good ==> e.end <= e.start + Timeout(e.request))
    && e.before == Advance(previous, e.at)
    && (e.good ==> e.took)
    && (e.took ==> e.ran && Accepts(e.before, e.request))
    && (if !e.took then e.after == e.before
        else if e.request.Create? then
          && e.after.config == e.before.config && e.after.pending.Some?
          && e.after.pending.value.saved == e.before.config
          && e.after.pending.value.firesAt >= e.at + 1000 * e.request.rollback
        else e.after == Execute(e.before, e.at, e.request, 0))
  }

  function After(log: seq<Event>, nm: Nm, i: nat): Nm
    requires i <= |log|
  {
    if i == 0 then nm else log[i - 1].after
  }

  /** Every event follows from the one before, in time and in NetworkManager's state. */
  ghost predicate Linked(log: seq<Event>, nm: Nm) {
    && (forall i :: 0 <= i < |log| ==> EventOk(log[i], After(log, nm, i)))
    && (forall i, j :: 0 <= i < j < |log| ==> log[i].end <= log[j].start)
  }

  ghost predicate Recorded(w: World, nm: Nm) {
    && Linked(w.log, nm)
    && w.nm == After(w.log, nm, |w.log|)
    && (forall i :: 0 <= i < |w.log| ==> w.log[i].end <= w.clock)
  }

  lemma EventIsOk(w: World, request: Request, r: Reply)
    ensures EventOk(CallEvent(w, request, r), w.nm)
    ensures CallEvent(w, request, r).start == w.clock
  {}

  lemma CallRecorded(env: Schedule, w: World, request: Request, nm: Nm)
    requires Recorded(w, nm)
    ensures Recorded(Call(env, w, request).0, nm)
  {
    hide CallEvent, EventOk;
    var e := CallEvent(w, request, env(w.calls));
    EventIsOk(w, request, env(w.calls));
    if !w.cancelled {
      var w' := Call(env, w, request).0;
      assert w'.log == w.log + [e] && w'.clock == e.end && w'.nm == e.after;
      assert e.start <= e.end by { OkIsOrdered(e, w.nm); }
      forall i | 0 <= i < |w'.log|
        ensures EventOk(w'.log[i], After(w'.log, nm, i))
      {
        assert After(w'.log, nm, i) == After(w.log, nm, i);
      }
    }
  }

  lemma OkIsOrdered(e: Event, previous: Nm)
    requires EventOk(e, previous)
    ensures e.start <= e.at <= e.end
  {}

  lemma SleepRecorded(env: Schedule, w: World, duration: nat, nm: Nm)
    requires Recorded(w, nm)
    ensures Recorded(Sleep(env, w, duration), nm)
  {}

  lemma {:induction false} ApplyRecorded(env: Schedule, w: World, changes: seq<NetworkManager.Change>, wait: nat,
                                         nm: Nm)
    requires Recorded(w, nm)
    ensures Recorded(ApplyAll(env, w, changes, wait).0, nm)
    decreases |changes|
  {
    hide Call, Recorded;
    if changes != [] {
      CallRecorded(env, w, Apply(changes[0], wait), nm);
      ApplyRecorded(env, Call(env, w, Apply(changes[0], wait)).0, changes[1..], wait, nm);
    }
  }

  lemma {:induction false} PollRecorded(env: Schedule, w: World, until: int, nm: Nm)
    requires Recorded(w, nm)
    ensures Recorded(Poll(env, w, until).0, nm)
    decreases Left(w, until)
  {
    hide Recorded, CallEvent;
    var (w1, a) := Call(env, w, PlatformCheck);
    CallRecorded(env, w, PlatformCheck, nm);
    if !a.Good? && !w1.cancelled && w1.clock + VERIFY_POLL < until {
      SleepRecorded(env, w1, VERIFY_POLL, nm);
      PollLess(env, w, until);
      PollRecorded(env, Sleep(env, w1, VERIFY_POLL), until, nm);
    }
  }

  lemma AwaitRecorded(env: Schedule, w: World, rollbackBy: nat, nm: Nm)
    requires Recorded(w, nm)
    ensures Recorded(AwaitRollback(env, w, rollbackBy).0, nm)
  {
    hide Call, Recorded, Sleep;
    var wait := if rollbackBy > w.clock then rollbackBy - w.clock else 0;
    SleepRecorded(env, w, wait, nm);
    var w1 := Sleep(env, w, wait);
    CallRecorded(env, w1, ListPending, nm);
    CallRecorded(env, Call(env, w1, ListPending).0, Rollback, nm);
  }

  lemma UnderCheckpointRecorded(env: Schedule, w: World, changes: seq<NetworkManager.Change>, wait: nat, made: bool,
                                until: int, rollbackBy: nat, nm: Nm)
    requires Recorded(w, nm)
    ensures Recorded(UnderCheckpoint(env, w, changes, wait, made, until, rollbackBy).0, nm)
  {
    hide Call, Recorded, ApplyAll, Poll, AwaitRollback;
    var (w1, ok) := ApplyAll(env, w, changes, wait);
    ApplyRecorded(env, w, changes, wait, nm);
    PollRecorded(env, w1, until, nm);
    var w2 := Verify(env, w1, until).0;
    CallRecorded(env, w1, Rollback, nm);
    CallRecorded(env, w2, Destroy, nm);
    AwaitRecorded(env, Call(env, w1, Rollback).0, rollbackBy, nm);
    AwaitRecorded(env, Call(env, w2, Destroy).0, rollbackBy, nm);
    AwaitRecorded(env, w2, rollbackBy, nm);
  }

  lemma RunRecorded(env: Schedule, w: World, op: NetOp, effect: Effect, rollback: nat)
    requires w.log == []
    ensures Recorded(Run(env, w, op, effect, rollback).0, w.nm)
  {
    hide Call, Recorded, UnderCheckpoint;
    assert Recorded(w, w.nm) by { NothingRecorded(w); }
    CallRecorded(env, w, Lookup, w.nm);
    var w1 := Resolve(env, w, op).0;
    CallRecorded(env, w1, Create(rollback), w.nm);
    CallRecorded(env, Call(env, w1, Create(rollback)).0, Create(rollback), w.nm);
    var (w2, made) := CreateCheckpoint(env, w1, rollback);
    UnderCheckpointRecorded(env, w2, Commands(op, effect), NmcliWait(rollback), made.Created?,
                            Until(w1, rollback), By(w2, rollback), w.nm);
  }

  lemma NothingRecorded(w: World)
    requires w.log == []
    ensures Recorded(w, w.nm)
  {}

  // ----- Timing -----

  lemma OkAt(log: seq<Event>, nm: Nm, i: nat)
    requires Linked(log, nm) && i < |log|
    ensures EventOk(log[i], After(log, nm, i)) && log[i].start <= log[i].at <= log[i].end
  {}

  lemma InOrder(log: seq<Event>, nm: Nm, i: nat, j: nat)
    requires Linked(log, nm) && i < j < |log|
    ensures log[i].end <= log[j].start <= log[j].at <= log[j].end
  {}

  /** A checkpoint comes only from being created. */
  lemma NoNewCheckpoint(e: Event, previous: Nm)
    requires EventOk(e, previous) && !e.request.Create?
    ensures e.before.pending.None? || e.before.pending == previous.pending
    ensures e.after.pending.None? || e.after.pending == previous.pending
  {}

  /** A change or check that is over before the timer fires leaves the checkpoint pending. */
  lemma QuietStep(e: Event, previous: Nm)
    requires EventOk(e, previous) && (e.request.Apply? || e.request.PlatformCheck?)
    requires previous.pending.Some? && e.end < previous.pending.value.firesAt
    ensures e.before == previous && e.after.pending == previous.pending
    ensures e.request.PlatformCheck? ==> e.after == previous
  {}

  /** From the creation at `c` on, the same checkpoint is pending or none is. */
  lemma {:induction false} SameCheckpoint(log: seq<Event>, nm: Nm, c: nat, i: nat)
    requires Linked(log, nm) && c <= i < |log|
    requires forall k :: c < k < |log| ==> !log[k].request.Create?
    ensures log[i].after.pending.None? || log[i].after.pending == log[c].after.pending
    decreases i
  {
    hide Linked, EventOk;
    if i > c {
      SameCheckpoint(log, nm, c, i - 1);
      OkAt(log, nm, i);
      NoNewCheckpoint(log[i], log[i - 1].after);
    }
  }

  /** Up to an event that is over before the timer fires, with only changes and checks since, the
      checkpoint is still pending. */
  lemma {:induction false} StillPending(log: seq<Event>, nm: Nm, c: nat, i: nat)
    requires Linked(log, nm) && c <= i < |log| && log[c].after.pending.Some?
    requires forall k :: c < k <= i ==> log[k].request.Apply? || log[k].request.PlatformCheck?
    requires i > c ==> log[i].end < log[c].after.pending.value.firesAt
    ensures log[i].after.pending == log[c].after.pending
    decreases i
  {
    hide Linked, EventOk;
    if i > c {
      OkAt(log, nm, i);
      InOrder(log, nm, i - 1, i);
      StillPending(log, nm, c, i - 1);
      QuietStep(log[i], log[i - 1].after);
    }
  }

  /** Checks neither change the configuration nor, while it is pending, outlast the checkpoint: the
      configuration they see is the one the last change left. */
  lemma {:induction false} LastChangeSeen(log: seq<Event>, nm: Nm, c: nat, a: nat, i: nat)
    requires Linked(log, nm) && c < a <= i < |log| && log[c].after.pending.Some?
    requires forall k :: c < k < a ==> log[k].request.Apply?
    requires forall k :: a <= k <= i ==> log[k].request.PlatformCheck?
    requires log[i].end < log[c].after.pending.value.firesAt
    ensures log[i].before == log[i].after == log[a - 1].after
    decreases i
  {
    hide Linked, EventOk;
    InOrder(log, nm, i - 1, i);
    StillPending(log, nm, c, i - 1);
    OkAt(log, nm, i);
    QuietStep(log[i], log[i - 1].after);
    if i > a {
      LastChangeSeen(log, nm, c, a, i - 1);
    }
  }

  /** Event `i` is a check made well before the timer of the checkpoint created at `c` can fire. */
  ghost predicate InTime(log: seq<Event>, rollback: nat, c: nat, i: nat)
    requires c < i < |log|
  {
    && log[c].request.Create? && log[c].after.pending.Some?
    && log[i].start + VERIFY_MARGIN < log[c].at + 1000 * rollback <= log[c].after.pending.value.firesAt
    && (log[i].good ==>
          && log[i].end < log[c].after.pending.value.firesAt
          && log[i].after.pending == log[c].after.pending
          && Measures(log, c, i))
  }

  /** What event `i` finds is what the last change since `c` left. */
  ghost predicate Measures(log: seq<Event>, c: nat, i: nat)
    requires c < i < |log|
  {
    exists m :: c <= m < i && log[i].before == log[m].after && forall k :: m < k < i ==> !log[k].request.Apply?
  }

  lemma CheckEnds(e: Event, previous: Nm)
    requires EventOk(e, previous) && e.request.PlatformCheck? && e.good
    ensures e.end <= e.start + CHECK_TIMEOUT
  {}

  lemma CreatedFires(e: Event, previous: Nm)
    requires EventOk(e, previous) && e.request.Create? && e.good
    ensures e.after.pending.Some? && e.after.pending.value.firesAt >= e.at + 1000 * e.request.rollback
  {}

  /** When the checkpoint was asked for at `r` and made at `c`. */
  lemma AskedFirst(log: seq<Event>, nm: Nm, r: nat, c: nat)
    requires Linked(log, nm) && r <= c < |log|
    ensures log[r].start <= log[c].at
  {
    hide EventOk;
    OkAt(log, nm, r);
    OkAt(log, nm, c);
    if r < c {
      InOrder(log, nm, r, c);
    }
  }

  lemma ShapeInTime(log: seq<Event>, nm: Nm, start: nat, op: NetOp, rollback: nat, r: nat, c: nat, a: nat, v: nat,
                    i: nat)
    requires RunShape(log, start, op, rollback, r, c, a, v) && Linked(log, nm)
    requires c < |log| && log[c - 1].good && a <= i < v
    ensures InTime(log, rollback, c - 1, i)
  {
    hide Linked, EventOk;
    OkAt(log, nm, c - 1);
    OkAt(log, nm, i);
    AskedFirst(log, nm, r, c - 1);
    CreatedFires(log[c - 1], After(log, nm, c - 1));
    if log[i].good {
      CheckEnds(log[i], After(log, nm, i));
      StillPending(log, nm, c - 1, i);
      LastChangeSeen(log, nm, c - 1, a, i);
      assert Measures(log, c - 1, i) by {
        assert log[i].before == log[a - 1].after;
      }
    }
  }

  /** Event `i` reads the pending checkpoints at least two seconds after the latest moment the timer
      of the checkpoint created at `c` is due; a timer no later than that has fired by then. */
  ghost predicate ReadAfterTheTimer(log: seq<Event>, rollback: nat, c: nat, i: nat)
    requires c < i < |log|
  {
    var deadline := log[c].end + 1000 * rollback + ROLLBACK_GRACE;
    && log[c].after.pending.Some?
    && log[i].start >= deadline
    && (log[c].after.pending.value.firesAt <= deadline ==> log[i].before.pending.None?)
  }

  lemma ReadsLate(log: seq<Event>, nm: Nm, rollback: nat, c: nat, i: nat)
    requires Linked(log, nm) && c < i < |log| && log[c].request.Create? && log[c].good
    requires forall k :: c < k < |log| ==> !log[k].request.Create?
    requires log[i].request.ListPending? && log[i].start >= log[c].end + 1000 * rollback + ROLLBACK_GRACE
    ensures ReadAfterTheTimer(log, rollback, c, i)
  {
    hide Linked;
    OkAt(log, nm, c);
    CreatedFires(log[c], After(log, nm, c));
    SameCheckpoint(log, nm, c, i - 1);
    OkAt(log, nm, i);
  }

  /** The timing of every run, whatever happens in it. With a checkpoint, no check starts within ten
      seconds of the earliest moment its timer can fire, and a good one is over before that moment,
      with the checkpoint still pending and the changed configuration in place: success is never
      measured on a rolled-back device. And the rollback is looked for only after it is due. */
  lemma TimingSandwich(env: Schedule, w: World, op: NetOp, effect: Effect, rollback: nat)
    requires w.log == []
    ensures var log := Run(env, w, op, effect, rollback).0.log;
            forall c, i :: 0 <= c < i < |log| && log[c].request.Create? && log[c].good ==>
              && (log[i].request.PlatformCheck? ==> InTime(log, rollback, c, i))
              && (log[i].request.ListPending? ==> ReadAfterTheTimer(log, rollback, c, i))
  {
    hide Run, InTime, Linked, EventOk, ReadAfterTheTimer, RunShape;
    var log := Run(env, w, op, effect, rollback).0.log;
    var r, c', a, v := RunHasShape(env, w, op, effect, rollback);
    RunRecorded(env, w, op, effect, rollback);
    forall c, i | 0 <= c < i < |log| && log[c].request.Create? && log[c].good
      ensures log[i].request.PlatformCheck? ==> InTime(log, rollback, c, i)
      ensures log[i].request.ListPending? ==> ReadAfterTheTimer(log, rollback, c, i)
    {
      OkAt(log, w.nm, c);
      GoodRan(log[c], After(log, w.nm, c));
      AfterCreate(log, w.clock, op, rollback, r, c', a, v, c, i);
      if log[i].request.PlatformCheck? {
        ShapeInTime(log, w.nm, w.clock, op, rollback, r, c', a, v, i);
      }
      if log[i].request.ListPending? {
        ReadsLate(log, w.nm, rollback, c, i);
      }
    }
  }

  lemma GoodRan(e: Event, previous: Nm)
    requires EventOk(e, previous) && e.good
    ensures e.ran && e.took
  {}

  /** Where events after the created checkpoint stand. */
  lemma AfterCreate(log: seq<Event>, start: nat, op: NetOp, rollback: nat, r: nat, c': nat, a: nat, v: nat, c: nat,
                    i: nat)
    requires RunShape(log, start, op, rollback, r, c', a, v)
    requires c < i < |log| && log[c].request.Create? && log[c].ran
    ensures c == c' - 1 && c' < |log|
    ensures forall k :: c < k < |log| ==> !log[k].request.Create?
    ensures log[i].request.PlatformCheck? ==> a <= i < v
    ensures log[i].request.ListPending? ==> log[i].start >= log[c].end + 1000 * rollback + ROLLBACK_GRACE
  {
    if c' < |log| {
      EndKinds(log, c', a, v, log[c' - 1].end + 1000 * rollback + ROLLBACK_GRACE);
    }
  }

  // ----- Time enough, whatever NetworkManager does -----

  lemma CreatedInTime(e: Event, previous: Nm)
    requires EventOk(e, previous) && e.request.Create? && e.good
    ensures e.end - e.at <= TOOL_TIMEOUT
  {}

  /** A reply the program still waits for is never later than that. */
  lemma AlwaysAnswered(env: Schedule, w: World, op: NetOp, effect: Effect, rollback: nat)
    requires w.log == []
    ensures AnsweredWithin(Run(env, w, op, effect, rollback).0.log, TOOL_TIMEOUT)
  {
    hide Run, Linked, EventOk;
    var log := Run(env, w, op, effect, rollback).0.log;
    RunRecorded(env, w, op, effect, rollback);
    forall i | 0 <= i < |log| && log[i].request.Create? && log[i].good
      ensures log[i].end - log[i].at <= TOOL_TIMEOUT
    {
      OkAt(log, w.nm, i);
      CreatedInTime(log[i], After(log, w.nm, i));
    }
  }

  /** So from 66 seconds on, the default of 90 included, nothing has to be supposed of NetworkManager's
      promptness; nor, from 121 on, of the profile the device runs. */
  lemma NoStrandingFrom66(env: Schedule, w: World, op: NetOp, effect: Effect, rollback: nat)
    requires w.log == [] && UnderGuard(env, w, op, rollback) && rollback >= 66
    requires |Commands(op, effect)| == 1 || Settled(w.nm).stored == Settled(w.nm).active || rollback >= 121
    ensures NeverStranded(Run(env, w, op, effect, rollback).0.log, Settled(w.nm))
  {
    hide Run, NeverStranded, AnsweredWithin, UnderGuard, Settled;
    AlwaysAnswered(env, w, op, effect, rollback);
    NoStranding(env, w, op, effect, rollback, TOOL_TIMEOUT);
  }

  // ----- What is reported -----

  /** The reason admits no doubt about the rollback. */
  predicate Unqualified(reason: Reason) {
    match reason
    case ApplyFailed => true
    case UnreachableKept => false
    case _ => reason.note == NoNote || reason.note == RolledBackExplicitly
  }

  /** A note on the rollback says how the last look at it went. */
  ghost predicate NoteHolds(note: Note, log: seq<Event>) {
    && |log| > 0
    && var e := log[|log| - 1];
       match note
       case NoNote => e.request.ListPending? && e.good && e.before.pending.None?
       case RolledBackExplicitly => e.request.Rollback? && e.good
       case ExplicitRollbackFailed => e.request.Rollback? && !e.good
       case Unconfirmed => e.request.ListPending? && !e.good
  }

  predicate ReportsRollback(result: Result<Outcome, Failure>) {
    result.Ok? && result.value.rolledBack && result.value.reason.Some? && Unqualified(result.value.reason.value)
  }

  /** The fields of a result agree with one another. */
  predicate Coherent(o: Outcome) {
    && (o.verified ==> o.applied)
    && (o.applied ==> !o.rolledBack)
    && (o.rolledBack ==> o.checkpoint)
    && (o.reason == None <==> o.verified)
    && (if o.checkpoint then
          && o.applied == o.verified && o.rolledBack == !o.verified
          && o.reason != Some(UnreachableKept)
        else
          && !o.rolledBack && (o.applied <==> o.reason != Some(ApplyFailed))
          && o.reason in {None, Some(ApplyFailed), Some(UnreachableKept)})
  }

  /** NetworkManager's own last word: it acknowledged a rollback, or no longer listed the checkpoint. */
  ghost predicate RollbackConfirmed(log: seq<Event>) {
    && |log| > 0
    && var e := log[|log| - 1];
       && e.good
       && (e.request.Rollback? || (e.request.ListPending? && e.before.pending.None?))
  }

  ghost predicate KeptConfirmed(log: seq<Event>) {
    && |log| > 1
    && log[|log| - 1].request.Destroy? && log[|log| - 1].good
    && log[|log| - 2].request.PlatformCheck? && log[|log| - 2].good
  }

  lemma UnderCheckpointReports(env: Schedule, w: World, changes: seq<NetworkManager.Change>, wait: nat, made: bool,
                               until: int, rollbackBy: nat)
    ensures var (w', result) := UnderCheckpoint(env, w, changes, wait, made, until, rollbackBy);
            result.Ok? ==>
              && var o := result.value;
              && !w'.cancelled && Coherent(o) && o.checkpoint == made
              && (o.rolledBack && Unqualified(o.reason.value) ==> RollbackConfirmed(w'.log))
              && (o.rolledBack && o.reason != Some(ApplyFailed) ==> NoteHolds(o.reason.value.note, w'.log))
              && (o.verified && made ==> KeptConfirmed(w'.log))
  {
    hide ApplyAll, Verify, AwaitRollback, CallEvent;
    var (w1, ok) := ApplyAll(env, w, changes, wait);
    if !ok {
      if !w1.cancelled {
        CallIs(env, w1, Rollback);
        AwaitAdds(env, Call(env, w1, Rollback).0, rollbackBy);
        AwaitNotes(env, Call(env, w1, Rollback).0, rollbackBy);
      }
    } else {
      var w2 := Verify(env, w1, until).0;
      VerifyAdds(env, w1, until);
      if !w2.cancelled {
        CallIs(env, w2, Destroy);
        AwaitNotes(env, Call(env, w2, Destroy).0, rollbackBy);
        AwaitNotes(env, w2, rollbackBy);
      }
    }
  }

  lemma AwaitNotes(env: Schedule, w: World, rollbackBy: nat)
    ensures var (w', note) := AwaitRollback(env, w, rollbackBy);
            !w'.cancelled ==> NoteHolds(note, w'.log)
  {}

  /** Every result a run returns is coherent; without a checkpoint the operation was harmless; a
      rollback reported without reservation was confirmed by NetworkManager, and a note on it says how
      the last look at it went; a verified result ends with a good check and the checkpoint's
      destruction. Cancelled runs return none. */
  lemma OutcomeCoherent(env: Schedule, w: World, op: NetOp, effect: Effect, rollback: nat)
    ensures var (w', result) := Run(env, w, op, effect, rollback);
            result.Ok? ==>
              && var o := result.value;
              && !w'.cancelled && Coherent(o)
              && (!o.checkpoint ==> op == Interface(true) || op == Connection(true))
              && (o.rolledBack && Unqualified(o.reason.value) ==> RollbackConfirmed(w'.log))
              && (o.rolledBack && o.reason != Some(ApplyFailed) ==> NoteHolds(o.reason.value.note, w'.log))
              && (o.verified && o.checkpoint ==> KeptConfirmed(w'.log))
  {
    hide UnderCheckpoint, Resolve, CreateCheckpoint;
    var w1 := Resolve(env, w, op).0;
    var (w2, made) := CreateCheckpoint(env, w1, rollback);
    UnderCheckpointReports(env, w2, Commands(op, effect), NmcliWait(rollback), made.Created?,
                           Until(w1, rollback), By(w2, rollback));
  }

  /** A result speaks of a checkpoint exactly if NetworkManager confirmed one. */
  lemma CheckpointIsReal(env: Schedule, w: World, op: NetOp, effect: Effect, rollback: nat)
    requires w.log == []
    ensures var (w', result) := Run(env, w, op, effect, rollback);
            result.Ok? ==>
              (result.value.checkpoint <==>
                 exists c :: 0 <= c < |w'.log| && w'.log[c].request.Create? && w'.log[c].good)
  {
    hide UnderCheckpoint, Resolve, CreateCheckpoint, Paced, Shape, Coherent;
    var w1 := Resolve(env, w, op).0;
    var (w2, made) := CreateCheckpoint(env, w1, rollback);
    var changes, wait, until, due := Commands(op, effect), NmcliWait(rollback), Until(w1, rollback), By(w2, rollback);
    ResolveAdds(env, w, op);
    CreateAdds(env, w1, rollback);
    GoodIsCreated(env, w1, rollback);
    UnderCheckpointReports(env, w2, changes, wait, made.Created?, until, due);
    UnderCheckpointPaced(env, w2, changes, wait, made.Created?, until, due);
    var a, v := UnderCheckpointShape(env, w2, changes, wait, made.Created?, until, due);
    var log := UnderCheckpoint(env, w2, changes, wait, made.Created?, until, due).0.log;
    NoCreatesAfter(log, |w2.log|, a, v, made.Created?, |changes|, until, due);
    if made.Created? {
      assert log[|w2.log| - 1].request.Create? && log[|w2.log| - 1].good;
    }
  }

  /** How every run begins, and why it goes no further: an operation by interface, and `lte`, looks the
      connection up, once, before anything else; it goes on only if that succeeds and, but for `lte`,
      finds one. Without a result and not cancelled: the lookup failed or found none; or no D-Bus tool
      was found, twice over, for an operation that is not harmless; or one was found, and failed. */
  lemma BeginsRightly(env: Schedule, w: World, op: NetOp, effect: Effect, rollback: nat)
    requires w.log == []
    ensures var (w', result) := Run(env, w, op, effect, rollback);
            var log := w'.log;
            var needs := op == Ipv4(true) || op == Dns(true) || op == Lte;
            && (log == [] <==> w.cancelled)
            && (log != [] ==> (log[0].request.Lookup? <==> needs))
            && (forall i :: 0 < i < |log| ==> !log[i].request.Lookup?)
            && (needs && |log| > 1 ==> log[0].good && (op == Lte || log[0].yes))
            && (result == Err(LookupFailed) <==> needs && (log == [] || !log[0].good))
            && (result == Err(NoConnection) <==> needs && op != Lte && log != [] && log[0].good && !log[0].yes)
            && (result == Err(NoCheckpoint) ==> op != Interface(true) && op != Connection(true))
            && (result == Err(NoCheckpoint) && !w'.cancelled ==>
                  |log| >= 2 && forall i :: |log| - 2 <= i < |log| ==> log[i].request.Create? && !log[i].ran)
            && (result == Err(CheckpointFailed) ==>
                  log != [] && log[|log| - 1].request.Create? && log[|log| - 1].ran && !log[|log| - 1].good)
  {
    hide UnderCheckpoint, Call, Paced, Shape, Commands, NmcliWait;
    var (w1, failed) := Resolve(env, w, op);
    LookupIs(env, w, op);
    var (w2, made) := CreateCheckpoint(env, w1, rollback);
    CreateIs(env, w1, rollback);
    var changes, wait, until, due := Commands(op, effect), NmcliWait(rollback), Until(w1, rollback), By(w2, rollback);
    hide Resolve, CreateCheckpoint, Until, By;
    ErrIsCancelled(env, w2, changes, wait, made.Created?, until, due);
    UnderCheckpointPaced(env, w2, changes, wait, made.Created?, until, due);
    var a, v := UnderCheckpointShape(env, w2, changes, wait, made.Created?, until, due);
    NoLookupsAfter(UnderCheckpoint(env, w2, changes, wait, made.Created?, until, due).0.log, |w2.log|, a, v,
                   made.Created?, |changes|, until, due);
    if w.cancelled {
      NothingUnderCancelled(env, w2, changes, wait, made.Created?, until, due);
    }
  }

  lemma NothingUnderCancelled(env: Schedule, w: World, changes: seq<NetworkManager.Change>, wait: nat, made: bool,
                              until: int, due: nat)
    ensures w.cancelled ==> UnderCheckpoint(env, w, changes, wait, made, until, due).0.log == w.log
  {
    if w.cancelled {
      CancelledStays(env, w, changes, wait, made, until, due);
    }
  }

  lemma LookupIs(env: Schedule, w: World, op: NetOp)
    requires w.log == []
    ensures var (w1, failed) := Resolve(env, w, op);
            var needs := op == Ipv4(true) || op == Dns(true) || op == Lte;
            && (if needs && !w.cancelled then
                  && |w1.log| == 1 && w1.log[0].request.Lookup?
                  && (failed == None <==> w1.log[0].good && (op == Lte || w1.log[0].yes))
                  && (failed == Some(LookupFailed) <==> !w1.log[0].good)
                  && (failed == None || failed == Some(LookupFailed) || failed == Some(NoConnection))
                else w1 == w && failed == if needs then Some(LookupFailed) else None)
  {}

  lemma CreateIs(env: Schedule, w: World, rollback: nat)
    ensures var (w', made) := CreateCheckpoint(env, w, rollback);
            && w.log <= w'.log && (w'.log == w.log <==> w.cancelled) && (w.cancelled ==> w'.cancelled)
            && (forall i :: |w.log| <= i < |w'.log| ==> w'.log[i].request == Create(rollback))
            && (made.Refused? ==> |w'.log| > |w.log| && w'.log[|w'.log| - 1].ran && !w'.log[|w'.log| - 1].good)
            && (made.Unavailable? && !w'.cancelled ==>
                  |w'.log| == |w.log| + 2 && forall i :: |w.log| <= i < |w'.log| ==> !w'.log[i].ran)
  {}

  lemma NoLookupsAfter(log: seq<Event>, from: nat, a: nat, v: nat, made: bool, changes: nat, until: int, due: nat)
    requires Shape(log, from, a, v, made, changes, until, due)
    ensures forall i :: from <= i < |log| ==> !log[i].request.Lookup?
  {
    EndKinds(log, from, a, v, due);
  }

  /** Every other run was cancelled, or gave up before it changed anything: its only calls were to look
      the connection up and to create the checkpoint, of which the last did not succeed. */
  lemma RefusedBeforeAnyChange(env: Schedule, w: World, op: NetOp, effect: Effect, rollback: nat)
    requires w.log == []
    ensures var (w', result) := Run(env, w, op, effect, rollback);
            result.Err? ==>
              if result.error == Cancelled then w'.cancelled
              else
                && (forall i :: 0 <= i < |w'.log| ==>
                    w'.log[i].request == Lookup || w'.log[i].request == Create(rollback))
                && (forall i :: 0 <= i < |w'.log| && w'.log[i].request.Create? ==> !w'.log[i].good)
                && (result.error == NoCheckpoint ==> !Harmless(op))
                && (result.error == NoConnection ==> NeedsLookup(op) && !op.Lte?)
  {
    hide UnderCheckpoint, CallEvent;
    var w1 := Resolve(env, w, op).0;
    ResolveAdds(env, w, op);
    CreateAdds(env, w1, rollback);
    GoodIsCreated(env, w1, rollback);
    var (w2, made) := CreateCheckpoint(env, w1, rollback);
    ErrIsCancelled(env, w2, Commands(op, effect), NmcliWait(rollback), made.Created?, Until(w1, rollback),
                   By(w2, rollback));
  }

  lemma GoodIsCreated(env: Schedule, w: World, rollback: nat)
    ensures var (w', made) := CreateCheckpoint(env, w, rollback);
            !made.Created? ==> forall i :: |w.log| <= i < |w'.log| ==> !w'.log[i].good
  {}

  lemma ErrIsCancelled(env: Schedule, w: World, changes: seq<NetworkManager.Change>, wait: nat, made: bool,
                       until: int, rollbackBy: nat)
    ensures var (w', result) := UnderCheckpoint(env, w, changes, wait, made, until, rollbackBy);
            result.Err? ==> result.error == Cancelled && w'.cancelled
  {
    hide ApplyAll, Verify, AwaitRollback, Call;
  }

  /** A result's reason is what happened. */
  ghost predicate Explains(reason: Option<Reason>, log: seq<Event>) {
    match reason
    case None => exists i :: 0 <= i < |log| && log[i].request.PlatformCheck? && log[i].good
    case Some(ApplyFailed) =>
      && (exists i :: 0 <= i < |log| && log[i].request.Apply? && !log[i].good)
      && (forall i :: 0 <= i < |log| && log[i].request.Rollback? ==> log[i].good)
    case Some(ApplyAndRollbackFailed(_)) =>
      && (exists i :: 0 <= i < |log| && log[i].request.Apply? && !log[i].good)
      && (exists i :: 0 <= i < |log| && log[i].request.Rollback? && !log[i].good)
    case Some(DestroyFailed(_)) =>
      && (exists i :: 0 <= i < |log| && log[i].request.PlatformCheck? && log[i].good)
      && (exists i :: 0 <= i < |log| && log[i].request.Destroy? && !log[i].good)
    case Some(_) =>
      forall i :: 0 <= i < |log| ==>
        && (log[i].request.Apply? ==> log[i].good)
        && (log[i].request.PlatformCheck? ==> !log[i].good)
        && !log[i].request.Destroy?
  }

  /** Checks that find nothing are not good. */
  lemma {:induction false} PollFails(env: Schedule, w: World, until: int)
    ensures var (w', ok) := Poll(env, w, until);
            w.log <= w'.log && (!ok ==> forall i :: |w.log| <= i < |w'.log| ==> !w'.log[i].good)
    decreases Left(w, until)
  {
    hide CallEvent, Left;
    var (w1, a) := Call(env, w, PlatformCheck);
    if !w.cancelled {
      CallIs(env, w, PlatformCheck);
    }
    if !a.Good? && !w1.cancelled && w1.clock + VERIFY_POLL < until {
      PollLess(env, w, until);
      PollFails(env, Sleep(env, w1, VERIFY_POLL), until);
    }
  }

  /** Lookups and attempts at a checkpoint up to `n`, changes up to `a`, checks up to `v`: all the changes
      were good, none of the checks was, and there is nothing but waiting after. */
  lemma SilenceExplains(log: seq<Event>, n: nat, a: nat, v: nat, until: int, rollbackBy: nat, reason: Reason)
    requires n <= a <= v <= |log| && (reason.Unreachable? || reason.UnreachableKept?)
    requires forall i :: 0 <= i < n ==> log[i].request.Lookup? || log[i].request.Create?
    requires Changes(log, n, a) && (a > n ==> log[a - 1].good)
    requires Checks(log, a, v, until) && forall i :: a <= i < v ==> !log[i].good
    requires Waits(log, v, rollbackBy)
    ensures Explains(Some(reason), log)
  {
    WaitKinds(log, v, rollbackBy);
  }

  lemma UnderCheckpointExplains(env: Schedule, w: World, changes: seq<NetworkManager.Change>, wait: nat, made: bool,
                                until: int, rollbackBy: nat)
    requires forall i :: 0 <= i < |w.log| ==> w.log[i].request.Lookup? || w.log[i].request.Create?
    ensures var (w', result) := UnderCheckpoint(env, w, changes, wait, made, until, rollbackBy);
            result.Ok? ==> Explains(result.value.reason, w'.log)
  {
    hide ApplyAll, Verify, AwaitRollback, CallEvent, Call, Explains, Changes, Checks, Waits;
    var (w1, ok) := ApplyAll(env, w, changes, wait);
    ApplyAdds(env, w, changes, wait);
    if !ok {
      if !w1.cancelled {
        OnlyChanges(w1.log, |w.log|);
        ChangeFailed(env, w1, |w.log|, rollbackBy);
      }
    } else {
      var (w2, reachable) := Verify(env, w1, until);
      VerifyAdds(env, w1, until);
      VerifyFails(env, w1, until);
      if !w2.cancelled {
        if reachable {
          CheckGood(w2.log, |w1.log|, until);
          Reached(env, w2, rollbackBy);
        } else {
          AwaitAdds(env, w2, rollbackBy);
          var log := AwaitRollback(env, w2, rollbackBy).0.log;
          ChangesKept(w1.log, w2.log, |w.log|, |w1.log|);
          ChangesKept(w2.log, log, |w.log|, |w1.log|);
          ChecksKept(w2.log, log, |w1.log|, |w2.log|, until);
          WaitsForNothing(w2.log, rollbackBy);
          SilenceExplains(w2.log, |w.log|, |w1.log|, |w2.log|, until, rollbackBy, UnreachableKept);
          var note := AwaitRollback(env, w2, rollbackBy).1;
          SilenceExplains(log, |w.log|, |w1.log|, |w2.log|, until, rollbackBy, Unreachable(note));
        }
      }
    }
  }

  lemma VerifyFails(env: Schedule, w: World, until: int)
    ensures var (w', ok) := Verify(env, w, until);
            !ok ==> forall i :: |w.log| <= i < |w'.log| ==> !w'.log[i].good
  {
    hide Poll;
    PollFails(env, w, until);
  }

  lemma CheckGood(log: seq<Event>, from: nat, until: int)
    requires from < |log| && Checks(log, from, |log|, until) && log[|log| - 1].good
    ensures Explains(None, log)
  {}

  lemma ChangeFailed(env: Schedule, w: World, from: nat, rollbackBy: nat)
    requires from < |w.log| && Changes(w.log, from, |w.log|) && !w.log[|w.log| - 1].good && !w.cancelled
    requires forall i :: 0 <= i < |w.log| ==> !w.log[i].request.Rollback?
    ensures Explains(Some(ApplyFailed), w.log)
    ensures var (w1, a) := Call(env, w, Rollback);
            var (w2, note) := AwaitRollback(env, w1, rollbackBy);
            && (a.Good? ==> Explains(Some(ApplyFailed), w1.log))
            && (!a.Good? ==> Explains(Some(ApplyAndRollbackFailed(note)), w2.log))
  {
    hide CallEvent, AwaitRollback, Changes, Waits;
    assert w.log[|w.log| - 1].request.Apply? by { LastChange(w.log, from); }
    CallIs(env, w, Rollback);
    AwaitAdds(env, Call(env, w, Rollback).0, rollbackBy);
  }

  lemma OnlyChanges(log: seq<Event>, from: nat)
    requires Changes(log, from, |log|)
    requires forall i :: 0 <= i < from ==> log[i].request.Lookup? || log[i].request.Create?
    ensures forall i :: 0 <= i < |log| ==> !log[i].request.Rollback?
  {}

  lemma LastChange(log: seq<Event>, from: nat)
    requires from < |log| && Changes(log, from, |log|)
    ensures log[|log| - 1].request.Apply?
  {}

  lemma Reached(env: Schedule, w: World, rollbackBy: nat)
    requires Explains(None, w.log) && !w.cancelled
    ensures var (w1, a) := Call(env, w, Destroy);
            var (w2, note) := AwaitRollback(env, w1, rollbackBy);
            && Explains(None, w1.log)
            && (!a.Good? ==> Explains(Some(DestroyFailed(note)), w2.log))
  {
    hide CallEvent, AwaitRollback, Waits;
    CallIs(env, w, Destroy);
    AwaitAdds(env, Call(env, w, Destroy).0, rollbackBy);
  }

  /** The reason given for every result is what happened: a change that failed, a platform that answered
      no check after changes that all succeeded, a checkpoint that would not go after it had answered. */
  lemma ReasonIsTrue(env: Schedule, w: World, op: NetOp, effect: Effect, rollback: nat)
    requires w.log == []
    ensures var (w', result) := Run(env, w, op, effect, rollback);
            result.Ok? ==> Explains(result.value.reason, w'.log)
  {
    hide UnderCheckpoint, CallEvent, Explains;
    var w1 := Resolve(env, w, op).0;
    ResolveAdds(env, w, op);
    CreateAdds(env, w1, rollback);
    var (w2, made) := CreateCheckpoint(env, w1, rollback);
    UnderCheckpointExplains(env, w2, Commands(op, effect), NmcliWait(rollback), made.Created?, Until(w1, rollback),
                            By(w2, rollback));
  }

  // ----- Whether it is so -----

  lemma RecordedIs(w: World, nm: Nm)
    requires Recorded(w, nm)
    ensures Linked(w.log, nm) && w.nm == After(w.log, nm, |w.log|)
  {}

  lemma GoodRollback(e: Event, previous: Nm)
    requires EventOk(e, previous) && e.good
    requires e.request.Rollback? || (e.request.ListPending? && e.before.pending.None?)
    ensures e.after.pending.None?
  {}

  /** Destroying the checkpoint took effect in event `j`. */
  predicate DestroyedAt(log: seq<Event>, j: nat) {
    j < |log| && log[j].request.Destroy? && log[j].took
  }

  /** The configuration the platform answered under before the checkpoint was destroyed, if it was, is
      `config`. */
  ghost predicate KeptOnly(log: seq<Event>, config: Config) {
    forall j: nat :: DestroyedAt(log, j) ==> j > 0 && log[j - 1].before.config == config
  }

  /** Destroying the checkpoint straight after a check keeps what the check saw. */
  lemma DestroyKeeps(check: Event, e: Event, previous: Nm)
    requires EventOk(check, previous) && check.request.PlatformCheck? && check.good
    requires EventOk(e, check.after) && e.request.Destroy? && e.took
    ensures e.after == Nm(check.before.config, None)
  {}

  lemma NothingPending(e: Event, previous: Nm)
    requires EventOk(e, previous) && previous.pending.None?
    requires e.request.ListPending? || e.request.Rollback?
    ensures e.after == previous
  {}

  /** And nothing asked afterwards changes it. */
  lemma {:induction false} KeptAfter(log: seq<Event>, nm: Nm, j: nat, i: nat, kept: Config)
    requires Linked(log, nm) && j <= i < |log| && log[j].after == Nm(kept, None)
    requires forall k :: j < k < |log| ==> log[k].request.ListPending? || log[k].request.Rollback?
    ensures log[i].after == Nm(kept, None)
    decreases i
  {
    hide Linked, EventOk;
    if i > j {
      KeptAfter(log, nm, j, i - 1, kept);
      OkAt(log, nm, i);
      NothingPending(log[i], log[i - 1].after);
    }
  }

  /** What every run leaves behind when the checkpoint was destroyed: the configuration the platform
      answered under, for good, whatever was reported. */
  lemma DestroyedIsKept(env: Schedule, w: World, op: NetOp, effect: Effect, rollback: nat, j: nat)
    requires w.log == [] && DestroyedAt(Run(env, w, op, effect, rollback).0.log, j)
    ensures var w' := Run(env, w, op, effect, rollback).0;
            && j > 0 && w'.log[j - 1].request.PlatformCheck? && w'.log[j - 1].good
            && w'.nm == Nm(w'.log[j - 1].before.config, None)
  {
    hide Run, Linked, Recorded, EventOk, OneCheckpoint, ChangesGuarded;
    var w' := Run(env, w, op, effect, rollback).0;
    var log := w'.log;
    TraceDiscipline(env, w, op, effect, rollback);
    RunRecorded(env, w, op, effect, rollback);
    RecordedIs(w', w.nm);
    OkAt(log, w.nm, j - 1);
    OkAt(log, w.nm, j);
    DestroyKeeps(log[j - 1], log[j], After(log, w.nm, j - 1));
    KeptAfter(log, w.nm, j, |log| - 1, log[j - 1].before.config);
  }

  /** A verified result is final: the device keeps, whatever time passes, the configuration the
      platform answered under. */
  lemma VerifiedIsKept(env: Schedule, w: World, op: NetOp, effect: Effect, rollback: nat, t: nat)
    requires w.log == []
    requires var result := Run(env, w, op, effect, rollback).1;
             result.Ok? && result.value.verified && result.value.checkpoint
    ensures var w' := Run(env, w, op, effect, rollback).0;
            && |w'.log| > 1
            && Advance(w'.nm, t) == Nm(w'.log[|w'.log| - 2].before.config, None)
  {
    hide Run, Linked, Recorded, EventOk;
    var w' := Run(env, w, op, effect, rollback).0;
    var n := |w'.log|;
    OutcomeCoherent(env, w, op, effect, rollback);
    RunRecorded(env, w, op, effect, rollback);
    RecordedIs(w', w.nm);
    OkAt(w'.log, w.nm, n - 1);
    GoodRan(w'.log[n - 1], After(w'.log, w.nm, n - 1));
    DestroyedIsKept(env, w, op, effect, rollback, n - 1);
  }

  /** And when it was not, with enough time: what it found. */
  lemma NotDestroyedIsRestored(env: Schedule, w: World, op: NetOp, effect: Effect, rollback: nat, replyWithin: nat)
    requires w.log == [] && UnderGuard(env, w, op, rollback)
    requires EnoughTime(op, Settled(w.nm), rollback, replyWithin)
    requires AnsweredWithin(Run(env, w, op, effect, rollback).0.log, replyWithin)
    requires forall j: nat :: !DestroyedAt(Run(env, w, op, effect, rollback).0.log, j)
    ensures Settled(Run(env, w, op, effect, rollback).0.nm) == Settled(w.nm)
  {
    hide Run, Linked, EventOk, Settled, EnoughTime, AnsweredWithin, UnderGuard;
    var w' := Run(env, w, op, effect, rollback).0;
    RunRecorded(env, w, op, effect, rollback);
    NoStranding(env, w, op, effect, rollback, replyWithin);
    KeptIsDestroyed(w'.log);
  }

  lemma KeptIsDestroyed(log: seq<Event>)
    ensures KeptBy(log, |log|) ==> exists j: nat :: DestroyedAt(log, j)
  {
    if KeptBy(log, |log|) {
      var k, j :| 0 <= k < j < |log| && log[k].request.PlatformCheck? && log[k].good
                  && log[j].request.Destroy? && log[j].took;
      assert DestroyedAt(log, j);
    }
  }

  /** So with enough time every run settles to the configuration it found exactly if its checkpoint was
      not destroyed, or was while that very configuration was in place. */
  lemma RestoredExactly(env: Schedule, w: World, op: NetOp, effect: Effect, rollback: nat, replyWithin: nat)
    requires w.log == [] && UnderGuard(env, w, op, rollback)
    requires EnoughTime(op, Settled(w.nm), rollback, replyWithin)
    requires AnsweredWithin(Run(env, w, op, effect, rollback).0.log, replyWithin)
    ensures var w' := Run(env, w, op, effect, rollback).0;
            Settled(w'.nm) == Settled(w.nm) <==> KeptOnly(w'.log, Settled(w.nm))
  {
    hide Run, Settled, EnoughTime, AnsweredWithin, UnderGuard;
    var w' := Run(env, w, op, effect, rollback).0;
    forall j: nat | DestroyedAt(w'.log, j)
      ensures j > 0 && w'.log[j - 1].before.config == Settled(w'.nm)
    {
      DestroyedIsKept(env, w, op, effect, rollback, j);
      SettledAlone(w'.nm);
    }
    if forall j: nat :: !DestroyedAt(w'.log, j) {
      NotDestroyedIsRestored(env, w, op, effect, rollback, replyWithin);
    }
  }

  /** With enough time, a rollback reported without reservation has happened, and the device is as it
      was, exactly if destroying the checkpoint took no effect, or the platform had answered under that
      same configuration. */
  lemma RolledBackExactly(env: Schedule, w: World, op: NetOp, effect: Effect, rollback: nat, replyWithin: nat)
    requires w.log == [] && UnderGuard(env, w, op, rollback)
    requires EnoughTime(op, Settled(w.nm), rollback, replyWithin)
    requires AnsweredWithin(Run(env, w, op, effect, rollback).0.log, replyWithin)
    requires ReportsRollback(Run(env, w, op, effect, rollback).1)
    ensures var w' := Run(env, w, op, effect, rollback).0;
            w'.nm == Nm(Settled(w.nm), None) <==> KeptOnly(w'.log, Settled(w.nm))
  {
    hide Run, Linked, Recorded, EventOk, Settled, EnoughTime, AnsweredWithin, UnderGuard, KeptOnly;
    var w' := Run(env, w, op, effect, rollback).0;
    var n := |w'.log|;
    OutcomeCoherent(env, w, op, effect, rollback);
    RunRecorded(env, w, op, effect, rollback);
    RecordedIs(w', w.nm);
    OkAt(w'.log, w.nm, n - 1);
    GoodRollback(w'.log[n - 1], After(w'.log, w.nm, n - 1));
    RestoredExactly(env, w, op, effect, rollback, replyWithin);
    SettledAlone(w'.nm);
  }

  /** A cancelled run rolls back, at the latest when the timer fires, exactly if it did not get to
      destroying the checkpoint, or did with the old configuration in place; and if it got that far,
      the request was cancelled no sooner than in that very call. */
  lemma CancelledRollsBack(env: Schedule, w: World, op: NetOp, effect: Effect, rollback: nat, replyWithin: nat)
    requires Fresh(w) && UnderGuard(env, w, op, rollback)
    requires EnoughTime(op, Settled(w.nm), rollback, replyWithin)
    requires AnsweredWithin(Run(env, w, op, effect, rollback).0.log, replyWithin)
    requires Run(env, w, op, effect, rollback).1 == Err(Cancelled)
    ensures var w' := Run(env, w, op, effect, rollback).0;
            && (Settled(w'.nm) == Settled(w.nm) <==> KeptOnly(w'.log, Settled(w.nm)))
            && (forall j: nat :: DestroyedAt(w'.log, j) ==>
                  && w'.upTo.Some? && w'.upTo.value > j && (forall i :: 0 <= i < j ==> !w'.log[i].cancelled)
                  && j > 0 && w'.nm == Nm(w'.log[j - 1].before.config, None))
  {
    hide Run, Settled, EnoughTime, AnsweredWithin, UnderGuard, KeptOnly;
    var w' := Run(env, w, op, effect, rollback).0;
    RefusedBeforeAnyChange(env, w, op, effect, rollback);
    NothingAfterCancel(env, w, op, effect, rollback);
    RestoredExactly(env, w, op, effect, rollback, replyWithin);
    forall j: nat | DestroyedAt(w'.log, j)
      ensures j > 0 && w'.nm == Nm(w'.log[j - 1].before.config, None)
    {
      DestroyedIsKept(env, w, op, effect, rollback, j);
    }
  }

  lemma SettledAlone(nm: Nm)
    requires nm.pending.None?
    ensures nm == Nm(Settled(nm), None)
  {}

  /** Everything goes well but the answer to `CheckpointDestroy` is lost. */
  function LostReply(): Schedule {
    (n: nat) => Reply(true, 0, true, 0, n != 3, true, 0, false)
  }

  /** From when the platform has answered. */
  lemma LostReplyEnds(w: World, after: Config)
    requires !w.cancelled && w.calls == 3 && w.clock == 0
    requires w.nm.config == after && w.nm.pending.Some? && w.nm.pending.value.firesAt == 30000
    ensures var (w', a) := Call(LostReply(), w, Destroy);
            var (w'', note) := AwaitRollback(LostReply(), w', 32000);
            && a == Bad && note == NoNote && !w''.cancelled && w''.nm == Nm(after, None)
  {}

  /** Such a report can be untrue: the device keeps the new configuration, and the result says, without
      reservation, that it was rolled back. */
  lemma LostDestroyReply(before: Config, after: Config)
    ensures var w := World(0, Nm(before, None), false, 0, [], None);
            var (w', result) := Run(LostReply(), w, Connection(false), Effect(0, after), 30);
            && w'.nm == Nm(after, None)
            && result == Ok(Outcome(false, false, true, true, Some(DestroyFailed(NoNote))))
  {
    var env := LostReply();
    var w := World(0, Nm(before, None), false, 0, [], None);
    var (w1, a1) := Call(env, w, Create(30));
    var nm := Nm(after, Some(Checkpoint(before, 30000)));
    assert a1 == Good(true) && w1.nm == Nm(before, Some(Checkpoint(before, 30000))) && w1.calls == 1 && w1.clock == 0;
    var (w2, a2) := Call(env, w1, Apply(Direct(after), 10));
    assert a2 == Good(true) && w2.nm == nm && w2.calls == 2 && w2.clock == 0;
    assert ApplyAll(env, w2, [], 10) == (w2, true);
    assert Commands(Connection(false), Effect(0, after))[1..] == [];
    assert ApplyAll(env, w1, Commands(Connection(false), Effect(0, after)), 10) == (w2, true);
    var (w3, a3) := Call(env, w2, PlatformCheck);
    assert a3 == Good(true) && w3.nm == nm && w3.calls == 3 && w3.clock == 0;
    assert Verify(env, w2, 20000) == (w3, true);
    LostReplyEnds(w3, after);
    assert CreateCheckpoint(env, w, 30) == (w1, Created);
  }

  /** Everything goes well, but the request is cancelled while the checkpoint is being destroyed. */
  function LateCancel(): Schedule {
    (n: nat) => Reply(true, 0, true, 0, true, true, 0, n == 3)
  }

  lemma LateCancelEnds(w: World, after: Config)
    requires !w.cancelled && w.calls == 3 && w.clock == 0
    requires w.nm.config == after && w.nm.pending.Some? && w.nm.pending.value.firesAt == 30000
    ensures var (w', a) := Call(LateCancel(), w, Destroy);
            a == Good(true) && w'.cancelled && w'.nm == Nm(after, None)
  {}

  /** So can a cancelled run keep its change, with no checkpoint left to roll back. */
  lemma CancelledAndKept(before: Config, after: Config)
    ensures var w := World(0, Nm(before, None), false, 0, [], None);
            var (w', result) := Run(LateCancel(), w, Connection(false), Effect(0, after), 30);
            w'.nm == Nm(after, None) && result == Err(Cancelled)
  {
    var env := LateCancel();
    var w := World(0, Nm(before, None), false, 0, [], None);
    var (w1, a1) := Call(env, w, Create(30));
    var nm := Nm(after, Some(Checkpoint(before, 30000)));
    assert a1 == Good(true) && w1.nm == Nm(before, Some(Checkpoint(before, 30000))) && w1.calls == 1 && w1.clock == 0;
    var (w2, a2) := Call(env, w1, Apply(Direct(after), 10));
    assert a2 == Good(true) && w2.nm == nm && w2.calls == 2 && w2.clock == 0;
    assert ApplyAll(env, w2, [], 10) == (w2, true);
    assert Commands(Connection(false), Effect(0, after))[1..] == [];
    assert ApplyAll(env, w1, Commands(Connection(false), Effect(0, after)), 10) == (w2, true);
    var (w3, a3) := Call(env, w2, PlatformCheck);
    assert a3 == Good(true) && w3.nm == nm && w3.calls == 3 && w3.clock == 0;
    assert Verify(env, w2, 20000) == (w3, true);
    LateCancelEnds(w3, after);
    assert CreateCheckpoint(env, w, 30) == (w1, Created);
  }
}
