/** One command (`run_command`, src/executor.rs) and one tool (`Runner::run`, src/diag.rs). Times are
    milliseconds since the command was spawned. */
module CommandRunner {
  import opened Wrappers

  /** Once a command has ended or been killed, how long its output pipes may still take. */
  const DRAIN_GRACE: nat := 1000

  /** A moment, or never. */
  type Moment = Option<nat>

  predicate NotBefore(m: Moment, t: nat) {
    m.None? || t <= m.value
  }

  function Later(m: Moment, t: nat): Moment {
    if m.Some? && m.value < t then Some(t) else m
  }

  /** How the outside behaves. `exits`: when the command would end by itself, and with what code;
      `silent`: when its pipes would then have reached their ends (a background child may hold them
      open for ever); `cancel`: when the request is cancelled; `quits`: how long after a kill the
      pipes take to end, if nothing outside the process group holds them. */
  datatype Outside = Outside(
    spawns: bool, waits: bool, exits: Moment, code: int, silent: Moment, cancel: Moment, quits: Moment)

  datatype CommandResult = CommandResult(
    exitCode: Option<int>, timedOut: bool, cancelled: bool, drained: bool, end: nat)

  datatype Which = First | Deadline | Cancellation

  function Earliest(first: Moment, deadline: nat, cancel: Moment): nat {
    var d := if first.Some? && first.value < deadline then first.value else deadline;
    if cancel.Some? && cancel.value < d then cancel.value else d
  }

  function MomentOf(which: Which, first: Moment, deadline: nat, cancel: Moment): Moment {
    match which
    case First => first
    case Deadline => Some(deadline)
    case Cancellation => cancel
  }

  /** `select!` over three futures: one of those ready first, any of them when several are. */
  method Select(first: Moment, deadline: nat, cancel: Moment, prefer: Which) returns (which: Which, at: nat)
    ensures NotBefore(first, at) && at <= deadline && NotBefore(cancel, at)
    ensures MomentOf(which, first, deadline, cancel) == Some(at)
    ensures MomentOf(prefer, first, deadline, cancel) == Some(at) ==> which == prefer
  {
    at := Earliest(first, deadline, cancel);
    if MomentOf(prefer, first, deadline, cancel) == Some(at) {
      which := prefer;
    } else if first == Some(at) {
      which := First;
    } else if deadline == at {
      which := Deadline;
    } else {
      which := Cancellation;
    }
  }

  /** When the command and its output are both over, if left alone. */
  function Done(o: Outside): Moment {
    if o.exits.Some? && o.silent.Some? then
      Some(if o.exits.value < o.silent.value then o.silent.value else o.exits.value)
    else None
  }

  /** The deadline or the cancellation came at `at`, before the command was over with its output. */
  predicate KilledAt(o: Outside, res: CommandResult, kills: seq<nat>, at: nat) {
    && NotBefore(Done(o), at)
    && kills != [] && (forall k :: 0 <= k < |kills| ==> kills[k] == at)
    && at <= res.end <= at + DRAIN_GRACE
    && (!res.drained ==> res.end == at + DRAIN_GRACE)
  }

  /** After a kill the pipes get only so long. */
  method Drain(quits: Moment, now: nat) returns (end: nat, drained: bool)
    ensures now <= end <= now + DRAIN_GRACE && (end < now + DRAIN_GRACE ==> drained)
    ensures drained <==> quits.Some? && quits.value < DRAIN_GRACE
  {
    if quits.Some? && quits.value < DRAIN_GRACE {
      return now + quits.value, true;
    }
    return now + DRAIN_GRACE, false;
  }

  /** The outcomes of `run_command`. Its two waits, for the command and then for its output, amount to
      one race: of the command being over with its output, the deadline, and the cancellation, whichever
      comes first decides the result, and on the last two the process group has been killed by the time
      it returns. */
  ghost predicate Ran(o: Outside, timeout: nat, r: Result<CommandResult, ()>, kills: seq<nat>) {
    && (r.Err? <==> !o.spawns || !o.waits)
    && (r.Ok? ==>
          && !(r.value.timedOut && r.value.cancelled)
          && (r.value.exitCode == None <==> r.value.timedOut || r.value.cancelled)
          && r.value.end <= timeout + DRAIN_GRACE)
    && (r.Ok? && r.value.timedOut ==>
          NotBefore(o.cancel, timeout) && KilledAt(o, r.value, kills, timeout))
    && (r.Ok? && r.value.cancelled ==>
          o.cancel.Some? && o.cancel.value <= timeout && KilledAt(o, r.value, kills, o.cancel.value))
    && (r.Ok? && r.value.exitCode.Some? ==>
          && Done(o) == Some(r.value.end) && r.value.end <= timeout && NotBefore(o.cancel, r.value.end)
          && r.value.exitCode == Some(o.code) && r.value.drained && kills == [])
  }

  /** The same in plain numbers. A result with an exit code has the command's own, is there as soon as the
      command and both its pipes are over, and that was in time and before any cancellation. A timed-out
      one was not over before the timeout, a cancelled one not before the cancellation; nothing of the
      process group is left alive then, and the call is over within a second. */
  lemma RanInNumbers(o: Outside, timeout: nat, r: CommandResult, kills: seq<nat>)
    requires Ran(o, timeout, Ok(r), kills)
    ensures var over := if o.exits.Some? && o.silent.Some? then
                          Some(if o.exits.value < o.silent.value then o.silent.value else o.exits.value)
                        else None;
            && (r.exitCode.Some? ==>
                  && over == Some(r.end) && r.end <= timeout && (o.cancel.Some? ==> r.end <= o.cancel.value)
                  && r.exitCode.value == o.code && !r.timedOut && !r.cancelled)
            && (r.exitCode.None? ==>
                  && r.timedOut != r.cancelled
                  && (r.cancelled ==> o.cancel.Some? && o.cancel.value <= timeout)
                  && (r.timedOut && o.cancel.Some? ==> timeout <= o.cancel.value)
                  && var at := if r.cancelled && o.cancel.Some? then o.cancel.value else timeout;
                     && (over.Some? ==> at <= over.value)
                     && |kills| > 0 && (forall k :: 0 <= k < |kills| ==> kills[k] == at)
                     && at <= r.end <= at + 1000)
  {}

  /** `run_command`, with whatever choices `select!` makes when several things happen at once. */
  method RunCommand(o: Outside, timeout: nat, prefer1: Which, prefer2: Which)
    returns (r: Result<CommandResult, ()>, kills: seq<nat>)
    ensures Ran(o, timeout, r, kills)
  {
    kills := [];
    if !o.spawns {
      return Err(()), [];
    }
    var timedOut, cancelled, drained := false, false, false;
    var which, now := Select(o.exits, timeout, o.cancel, prefer1);
    match which {
      case First =>
      case Deadline => timedOut := true;
      case Cancellation => cancelled := true;
    }
    if which != First {
      kills := kills + [now];
    }
    if !o.waits {
      return Err(()), kills;
    }
    if !(timedOut || cancelled) {
      which, now := Select(Later(o.silent, now), timeout, o.cancel, prefer2);
      match which {
        case First => drained := true;
        case Deadline => timedOut := true;
        case Cancellation => cancelled := true;
      }
    }
    if !drained {
      kills := kills + [now];
      now, drained := Drain(o.quits, now);
    }
    var code := if timedOut || cancelled then None else Some(o.code);
    return Ok(CommandResult(code, timedOut, cancelled, drained, now)), kills;
  }

  // ----- One tool, on the host or in the container -----

  datatype Place = Host | Container | HostThenContainer

  /** Where the tool is tried, in order; `true` is the host. */
  function Attempts(place: Place): seq<bool> {
    match place
    case Host => [true]
    case Container => [false]
    case HostThenContainer => [true, false]
  }

  /** `check`: exit 0, within the time, and not cancelled. */
  predicate Check(r: CommandResult) {
    !r.timedOut && !r.cancelled && r.exitCode == Some(0)
  }

  /** The tool is not there, or cannot be run. */
  predicate Missing(r: Result<CommandResult, ()>) {
    r.Err? || r.value.exitCode == Some(127)
  }

  datatype Refusal = HostIsOff | WasCancelled | NotThere(tried: seq<bool>)

  /** What comes of a tool: `outcome` says how it does in a place, `looks` what the successive looks at the
      request find. Not cancelled: it is run on the host first, if that is allowed, and in the container
      only if on the host it could not be run or sh did not find it (exit 127); what either finds is the
      result. Cancelled: as far as it was not. */
  predicate ComesOf(allowHost: bool, place: Place, outcome: bool -> Result<CommandResult, ()>, looks: nat -> bool,
                    r: Result<CommandResult, Refusal>, started: seq<bool>)
  {
    if place.Host? && !allowHost then started == [] && r == Err(HostIsOff)
    else if looks(0) then started == [] && r == Err(WasCancelled)
    else
      var first := outcome(!place.Container? && allowHost);
      if first.Ok? && first.value.exitCode != Some(127) then
        started == [!place.Container? && allowHost] && r == Ok(first.value)
      else if !(place.HostThenContainer? && allowHost) then
        started == [!place.Container? && allowHost] && r == Err(NotThere(started))
      else if looks(1) then started == [true] && r == Err(WasCancelled)
      else
        var container := outcome(false);
        && started == [true, false]
        && r == if container.Ok? && container.value.exitCode != Some(127) then Ok(container.value)
                else Err(NotThere([true, false]))
  }

  /** `Runner::run`. */
  method RunTool(allowHost: bool, place: Place, outcome: bool -> Result<CommandResult, ()>, looks: nat -> bool)
    returns (r: Result<CommandResult, Refusal>, started: seq<bool>)
    ensures ComesOf(allowHost, place, outcome, looks, r, started)
  {
    started := [];
    if !allowHost && place.Host? {
      return Err(HostIsOff), [];
    }
    var reasons: seq<bool> := [];
    var attempts := Attempts(place);
    for i := 0 to |attempts|
      invariant reasons == started == if allowHost then attempts[..i] else if i == |attempts| then [false] else []
      invariant forall k :: 0 <= k < |started| ==> !looks(k) && Missing(outcome(started[k]))
    {
      var onHost := attempts[i];
      if onHost && !allowHost {
        continue;
      }
      if looks(|reasons|) {
        return Err(WasCancelled), started;
      }
      started := started + [onHost];
      var result := outcome(onHost);
      if !Missing(result) {
        return Ok(result.value), started;
      }
      reasons := reasons + [onHost];
    }
    return Err(NotThere(reasons)), started;
  }
}
