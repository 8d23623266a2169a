/** `net_apply` step by step, as src/netapply.rs runs it: every method changes the session exactly as
    the corresponding function of `NetApply` says. */
module NetApplySession {
  import opened Wrappers
  import opened NetworkManager
  import opened NetApply

  datatype DbusTool = Busctl | DbusSend

  class Session {
    const env: Schedule
    var clock: nat
    var nm: Nm
    var cancelled: bool
    var calls: nat
    ghost var log: seq<Event>
    ghost var upTo: Option<nat>

    ghost function State(): World
      reads this
    {
      World(clock, nm, cancelled, calls, log, upTo)
    }

    constructor (env: Schedule, clock: nat, nm: Nm, cancelled: bool)
      ensures this.env == env && State() == World(clock, nm, cancelled, 0, [], if cancelled then Some(0) else None)
    {
      this.env, this.clock, this.nm, this.cancelled := env, clock, nm, cancelled;
      calls, log, upTo := 0, [], if cancelled then Some(0) else None;
    }

    method RunTool(request: Request) returns (a: Answer)
      modifies this
      ensures (State(), a) == Call(env, old(State()), request)
    {
      if cancelled {
        return NoTool;
      }
      var r := env(calls);
      var e := CallEvent(World(clock, nm, cancelled, calls, [], None), request, r);
      clock, nm, cancelled, calls := e.end, e.after, r.cancel, calls + 1;
      log, upTo := log + [e], Noted(upTo, r.cancel, |log| + 1);
      a := AnswerOf(e);
    }

    method Doze(duration: nat)
      modifies this
      ensures State() == Sleep(env, old(State()), duration)
    {
      if !cancelled {
        var r := env(calls);
        calls := calls + 1;
        if r.cancel && r.delay < duration {
          clock, cancelled, upTo := clock + r.delay, true, Noted(upTo, true, |log|);
        } else {
          clock := clock + duration;
        }
      }
    }

    method MakeCheckpoint(rollback: nat) returns (made: Made)
      modifies this
      ensures (State(), made) == CreateCheckpoint(env, old(State()), rollback)
    {
      hide Call;
      var tools := [Busctl, DbusSend];
      for i := 0 to |tools|
        invariant i == 0 ==> State() == old(State())
        invariant i > 0 ==>
                    var (w1, a1) := Call(env, old(State()), Create(rollback));
                    && a1.NoTool?
                    && (i == 1 ==> State() == w1)
                    && (i == 2 ==> (State(), NoTool) == Call(env, w1, Create(rollback)))
      {
        var a := RunTool(Create(rollback));
        match a {
          case Good(_) => return Created;
          case Bad => return Refused;
          case NoTool =>
        }
      }
      return Unavailable;
    }

    method ApplyChanges(changes: seq<NetworkManager.Change>, wait: nat) returns (ok: bool)
      modifies this
      ensures (State(), ok) == ApplyAll(env, old(State()), changes, wait)
    {
      hide Call;
      for i := 0 to |changes|
        invariant ApplyAll(env, State(), changes[i..], wait) == ApplyAll(env, old(State()), changes, wait)
      {
        assert changes[i..][0] == changes[i] && changes[i..][1..] == changes[i + 1..];
        var a := RunTool(Apply(changes[i], wait));
        if !a.Good? {
          return false;
        }
      }
      return true;
    }

    method VerifyPlatform(until: int) returns (reachable: bool)
      modifies this
      ensures (State(), reachable) == Verify(env, old(State()), until)
    {
      hide CallEvent;
      if clock >= until {
        return false;
      }
      ghost var first := Poll(env, State(), until);
      while true
        invariant Poll(env, State(), until) == first
        decreases Left(State(), until)
      {
        ghost var before := State();
        var a := RunTool(PlatformCheck);
        if a.Good? {
          return true;
        }
        if cancelled || clock + VERIFY_POLL >= until {
          return false;
        }
        PollLess(env, before, until);
        Doze(VERIFY_POLL);
      }
    }

    method WaitForRollback(rollbackBy: nat) returns (note: Note)
      modifies this
      ensures (State(), note) == AwaitRollback(env, old(State()), rollbackBy)
    {
      hide Call, Sleep;
      Doze(if rollbackBy > clock then rollbackBy - clock else 0);
      if cancelled {
        return NoNote;
      }
      var listed := RunTool(ListPending);
      if !listed.Good? {
        return Unconfirmed;
      }
      if !listed.yes {
        return NoNote;
      }
      var rolled := RunTool(Rollback);
      return if rolled.Good? then RolledBackExplicitly else ExplicitRollbackFailed;
    }

    method LookUp(op: NetOp) returns (failed: Option<Failure>)
      modifies this
      ensures (State(), failed) == Resolve(env, old(State()), op)
    {
      hide Call;
      if !NeedsLookup(op) {
        return None;
      }
      var a := RunTool(Lookup);
      if !a.Good? {
        return Some(LookupFailed);
      }
      return if op.Lte? || a.yes then None else Some(NoConnection);
    }

    method NetApply(op: NetOp, effect: Effect, rollback: nat) returns (result: Result<Outcome, Failure>)
      modifies this
      ensures (State(), result) == Run(env, old(State()), op, effect, rollback)
    {
      hide Call, CreateCheckpoint, ApplyAll, Verify, AwaitRollback, Resolve;
      var wait := NmcliWait(rollback);
      var failed := LookUp(op);
      if failed.Some? {
        return Err(failed.value);
      }
      var started := clock;
      var made := MakeCheckpoint(rollback);
      if made.Refused? {
        return Err(CheckpointFailed);
      }
      if made.Unavailable? && !Harmless(op) {
        return Err(NoCheckpoint);
      }
      var firesBy := clock + 1000 * rollback;
      var verifyUntil := started + 1000 * rollback - VERIFY_MARGIN;
      var rollbackBy := firesBy + ROLLBACK_GRACE;

      var applied := ApplyChanges(Commands(op, effect), wait);
      var outcome;
      if !applied {
        if cancelled {
          return Err(Cancelled);
        }
        if !made.Created? {
          outcome := Outcome(false, false, false, false, Some(ApplyFailed));
        } else {
          var rolled := RunTool(Rollback);
          if rolled.Good? {
            outcome := Outcome(false, false, true, true, Some(ApplyFailed));
          } else {
            var note := WaitForRollback(rollbackBy);
            outcome := Outcome(false, false, true, true, Some(ApplyAndRollbackFailed(note)));
          }
        }
      } else {
        var reachable := VerifyPlatform(verifyUntil);
        if cancelled {
          return Err(Cancelled);
        }
        if !made.Created? {
          outcome := Outcome(true, reachable, false, false, if reachable then None else Some(UnreachableKept));
        } else if reachable {
          var destroyed := RunTool(Destroy);
          if destroyed.Good? {
            outcome := Outcome(true, true, false, true, None);
          } else {
            var note := WaitForRollback(rollbackBy);
            outcome := Outcome(false, false, true, true, Some(DestroyFailed(note)));
          }
        } else {
          var note := WaitForRollback(rollbackBy);
          outcome := Outcome(false, false, true, true, Some(Unreachable(note)));
        }
      }
      if cancelled {
        return Err(Cancelled);
      }
      return Ok(outcome);
    }
  }
}
