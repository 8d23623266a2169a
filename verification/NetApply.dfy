/** The `net_apply` flow (src/netapply.rs) against NetworkManager and a clock. A schedule supplies
    everything outside the program: how each tool call goes, how long it takes, and when the request
    is cancelled. Times are milliseconds; computing takes none. */
module NetApply {
  import opened Wrappers
  import opened NetworkManager
  import CommandRunner

  // ----- Constants -----

  const TOOL_TIMEOUT: nat := 10000
  const CHECK_TIMEOUT: nat := 8000
  const VERIFY_MARGIN: nat := 10000
  const VERIFY_POLL: nat := 3000
  const ROLLBACK_GRACE: nat := 2000

  // ----- Operations -----

  datatype NetOp =
    | WifiConnect
    | Ipv4(byInterface: bool)
    | Dns(byInterface: bool)
    | Interface(up: bool)
    | Lte
    | Connection(up: bool)

  predicate Harmless(op: NetOp) {
    (op.Interface? && op.up) || (op.Connection? && op.up)
  }

  /** What the operation's commands would do: the profile it writes, or the configuration it makes. */
  datatype Effect = Effect(stored: int, config: Config)

  function Commands(op: NetOp, effect: Effect): seq<Change> {
    if op.Ipv4? || op.Dns? || op.Lte? then [Modify(effect.stored), Activate] else [Direct(effect.config)]
  }

  /** Whether the connection has to be looked up first. */
  predicate NeedsLookup(op: NetOp) {
    match op
    case Ipv4(byInterface) => byInterface
    case Dns(byInterface) => byInterface
    case Lte => true
    case _ => false
  }

  /** Seconds nmcli waits for an activation. */
  function NmcliWait(rollback: nat): nat {
    var w := if rollback >= 20 then rollback - 20 else 0;
    if w < 10 then 10 else if w > 45 then 45 else w
  }

  predicate ValidRollback(rollback: nat) {
    30 <= rollback <= 300
  }

  // ----- The outside -----

  /** How one tool call (or sleep) goes. `ran`: the tool was found; a missing one takes no part in
      what follows. `delay`: until the request gets to NetworkManager, if it is `reached`; `rest`:
      from then until the tool is done, if it is not killed before. `answered`: the tool reports
      success, if what was asked was done. `found`: a lookup finds its connection. `late`: how late a
      new checkpoint's timer fires. `cancel`: the request is cancelled before the call (or sleep) is
      over. */
  datatype Reply = Reply(
    ran: bool, delay: nat, reached: bool, rest: nat, answered: bool, found: bool, late: nat, cancel: bool)

  type Schedule = nat -> Reply

  /** One tool call: when it started, when its request got to NetworkManager, when it was over; whether
      what it says is a yes; what NetworkManager was like just before the request and just after it. */
  datatype Event = Event(
    request: Request, start: nat, at: nat, end: nat, ran: bool, took: bool, good: bool, yes: bool,
    before: Nm, after: Nm, cancelled: bool)

  /** `upTo`: how many tools had been started when the request was first found cancelled, if it was. */
  datatype World = World(clock: nat, nm: Nm, cancelled: bool, calls: nat, log: seq<Event>, upTo: Option<nat>)

  /** What the caller of a tool gets: no tool, a failure, or success with a yes-or-no answer. */
  datatype Answer = NoTool | Bad | Good(yes: bool)

  function Timeout(request: Request): nat {
    match request
    case Apply(_, wait) => 1000 * wait + 10000
    case PlatformCheck => CHECK_TIMEOUT
    case _ => TOOL_TIMEOUT
  }

  /** The event that a call starting in `w` is. At its timeout the tool is killed: a request not through
      by then never gets through, and a tool not done by then has failed. */
  function CallEvent(w: World, request: Request, r: Reply): Event {
    var limit := Timeout(request);
    var done := r.delay + r.rest;
    var at := w.clock + if r.ran then Min(r.delay, limit) else r.delay;
    var end := w.clock + if r.ran then Min(done, limit + CommandRunner.DRAIN_GRACE) else done;
    var before := Advance(w.nm, at);
    var took := r.ran && r.reached && r.delay <= limit && Accepts(before, request);
    var after := if took then Execute(before, at, request, r.late) else before;
    var yes := if request.ListPending? then before.pending.Some? else r.found;
    Event(request, w.clock, at, end, r.ran, took, took && r.answered && done <= limit, yes, before, after, r.cancel)
  }

  function AnswerOf(e: Event): Answer {
    if !e.ran then NoTool else if !e.good then Bad else Good(e.yes)
  }

  /** `before`, unless the request is cancelled now for the first time. */
  function Noted(before: Option<nat>, cancel: bool, started: nat): Option<nat> {
    if cancel && before.None? then Some(started) else before
  }

  /** `Runner::run` and the check of its result: nothing starts once the request is cancelled. */
  function Call(env: Schedule, w: World, request: Request): (World, Answer) {
    if w.cancelled then (w, NoTool)
    else
      var r := env(w.calls);
      var e := CallEvent(w, request, r);
      (World(e.end, e.after, r.cancel, w.calls + 1, w.log + [e], Noted(w.upTo, r.cancel, |w.log| + 1)), AnswerOf(e))
  }

  /** `Runner::sleep`: a cancellation ends it early. */
  function Sleep(env: Schedule, w: World, duration: nat): World {
    if w.cancelled then w
    else
      var r := env(w.calls);
      var early := r.cancel && r.delay < duration;
      w.(clock := w.clock + if early then r.delay else duration,
         cancelled := early, calls := w.calls + 1, upTo := Noted(w.upTo, early, |w.log|))
  }

  // ----- The parts of the flow -----

  datatype Made = Created | Refused | Unavailable

  /** busctl, and dbus-send if that is missing. */
  function CreateCheckpoint(env: Schedule, w: World, rollback: nat): (World, Made) {
    var (w1, a1) := Call(env, w, Create(rollback));
    match a1
    case Good(_) => (w1, Created)
    case Bad => (w1, Refused)
    case NoTool =>
      var (w2, a2) := Call(env, w1, Create(rollback));
      match a2
      case Good(_) => (w2, Created)
      case Bad => (w2, Refused)
      case NoTool => (w2, Unavailable)
  }

  function ApplyAll(env: Schedule, w: World, changes: seq<Change>, wait: nat): (World, bool)
    decreases |changes|
  {
    if changes == [] then (w, true)
    else
      var (w1, a) := Call(env, w, Apply(changes[0], wait));
      if a.Good? then ApplyAll(env, w1, changes[1..], wait) else (w1, false)
  }

  function Left(w: World, until: int): nat {
    if w.cancelled then 0 else 1 + if until > w.clock then until - w.clock else 0
  }

  function Poll(env: Schedule, w: World, until: int): (World, bool)
    decreases Left(w, until)
  {
    var (w1, a) := Call(env, w, PlatformCheck);
    if a.Good? then (w1, true)
    else if w1.cancelled || w1.clock + VERIFY_POLL >= until then (w1, false)
    else Poll(env, Sleep(env, w1, VERIFY_POLL), until)
  }

  /** A pause brings the deadline, or the cancellation, closer. */
  lemma PollLess(env: Schedule, w: World, until: int)
    ensures var (w1, a) := Call(env, w, PlatformCheck);
            !w1.cancelled && w1.clock + VERIFY_POLL < until ==>
              Left(Sleep(env, w1, VERIFY_POLL), until) < Left(w, until)
  {}

  function Verify(env: Schedule, w: World, until: int): (World, bool) {
    if w.clock >= until then (w, false) else Poll(env, w, until)
  }

  datatype Note = NoNote | RolledBackExplicitly | ExplicitRollbackFailed | Unconfirmed

  function AwaitRollback(env: Schedule, w: World, rollbackBy: nat): (World, Note) {
    var w1 := Sleep(env, w, if rollbackBy > w.clock then rollbackBy - w.clock else 0);
    if w1.cancelled then (w1, NoNote)
    else
      var (w2, a) := Call(env, w1, ListPending);
      if !a.Good? then (w2, Unconfirmed)
      else if !a.yes then (w2, NoNote)
      else
        var (w3, b) := Call(env, w2, Rollback);
        (w3, if b.Good? then RolledBackExplicitly else ExplicitRollbackFailed)
  }

  datatype Reason =
    | ApplyFailed
    | ApplyAndRollbackFailed(note: Note)
    | Unreachable(note: Note)
    | UnreachableKept
    | DestroyFailed(note: Note)

  datatype Outcome = Outcome(
    applied: bool, verified: bool, rolledBack: bool, checkpoint: bool, reason: Option<Reason>)

  datatype Failure = LookupFailed | NoConnection | NoCheckpoint | CheckpointFailed | Cancelled

  // ----- The flow -----

  /** From the checkpoint on; `made` says whether there is one. */
  function UnderCheckpoint(env: Schedule, w: World, changes: seq<Change>, wait: nat, made: bool, until: int,
                           rollbackBy: nat)
    : (World, Result<Outcome, Failure>)
  {
    var (w1, ok) := ApplyAll(env, w, changes, wait);
    if !ok then
      if w1.cancelled then (w1, Err(Cancelled))
      else if !made then (w1, Ok(Outcome(false, false, false, false, Some(ApplyFailed))))
      else
        var (w2, a) := Call(env, w1, Rollback);
        if a.Good? then Finish(w2, Outcome(false, false, true, true, Some(ApplyFailed)))
        else
          var (w3, note) := AwaitRollback(env, w2, rollbackBy);
          Finish(w3, Outcome(false, false, true, true, Some(ApplyAndRollbackFailed(note))))
    else
      var (w2, reachable) := Verify(env, w1, until);
      if w2.cancelled then (w2, Err(Cancelled))
      else if !made then
        (w2, Ok(Outcome(true, reachable, false, false, if reachable then None else Some(UnreachableKept))))
      else if reachable then
        var (w3, a) := Call(env, w2, Destroy);
        if a.Good? then Finish(w3, Outcome(true, true, false, true, None))
        else
          var (w4, note) := AwaitRollback(env, w3, rollbackBy);
          Finish(w4, Outcome(false, false, true, true, Some(DestroyFailed(note))))
      else
        var (w3, note) := AwaitRollback(env, w2, rollbackBy);
        Finish(w3, Outcome(false, false, true, true, Some(Unreachable(note))))
  }

  /** A request cancelled by now gets no result. */
  function Finish(w: World, outcome: Outcome): (World, Result<Outcome, Failure>) {
    (w, if w.cancelled then Err(Cancelled) else Ok(outcome))
  }

  function Resolve(env: Schedule, w: World, op: NetOp): (World, Option<Failure>) {
    if !NeedsLookup(op) then (w, None)
    else
      var (w1, a) := Call(env, w, Lookup);
      (w1, if !a.Good? then Some(LookupFailed) else if op.Lte? || a.yes then None else Some(NoConnection))
  }

  /** `net_apply` for one validated request. */
  function Run(env: Schedule, w: World, op: NetOp, effect: Effect, rollback: nat)
    : (World, Result<Outcome, Failure>)
  {
    var (w1, failed) := Resolve(env, w, op);
    if failed.Some? then (w1, Err(failed.value))
    else
      var (w2, made) := CreateCheckpoint(env, w1, rollback);
      if made.Refused? then (w2, Err(CheckpointFailed))
      else if made.Unavailable? && !Harmless(op) then (w2, Err(NoCheckpoint))
      else
        UnderCheckpoint(env, w2, Commands(op, effect), NmcliWait(rollback), made.Created?,
               Until(w1, rollback), By(w2, rollback))
  }

  /** When verification stops: counted from before the checkpoint was asked for. */
  function Until(w: World, rollback: nat): int {
    w.clock + 1000 * rollback - VERIFY_MARGIN
  }

  /** When the rollback must be over: counted from when the checkpoint was answered. */
  function By(w: World, rollback: nat): nat {
    w.clock + 1000 * rollback + ROLLBACK_GRACE
  }
}
