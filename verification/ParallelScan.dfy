/** `scan_modbus` (src/scan.rs) as its threads run it: a worker per port, the watcher that turns a
    cancelled request into a stop, and the joiner that collects the workers, sharing one stop flag.
    A step is whatever one of them does between two accesses to what they share. */
module ParallelScan {
  import opened Wrappers
  import opened Frames
  import opened ScanOrder
  import opened ScanPort

  /** The ports to scan, what is to be asked on each, in order, and at how many settings if it takes all. */
  datatype Setup = Setup(ports: seq<Port>, plans: seq<seq<Ask>>, settings: nat)

  predicate ValidSetup(u: Setup) {
    |u.ports| == |u.plans| && forall p :: 0 <= p < |u.plans| ==> Asks8(u.plans[p])
  }

  /** Why a port's scan ended. */
  datatype End = Answered(found: Found) | PlanDone | PortFailed | Stopped

  /** A worker, with how many replies it has waited for and how many settings it has begun: about to open
      its port; about to read the flag; having read it clear; with a request on the wire; ended; collected. */
  datatype Worker =
    | Opening
    | AtCheck(asked: nat, begun: nat)
    | Cleared(asked: nat, begun: nat)
    | OnWire(asked: nat, begun: nat)
    | Ended(asked: nat, end: End)
    | Joined(asked: nat, end: End)

  datatype Watcher = Watching | Looking | Finished(cancelled: bool)

  datatype Verdict = FoundIt | CancelledIt | Complete

  datatype Hit = Hit(port: nat, found: Found)

  datatype State = State(
    workers: seq<Worker>, stop: bool, cancelled: bool, watcher: Watcher, found: Option<Hit>, verdict: Option<Verdict>)

  datatype Step =
    | Open(p: nat)     // a worker opens its port, or fails to
    | Check(p: nat)    // a worker reads the flag
    | Begin(p: nat)    // on to the next settings, which the port takes or does not
    | Send(p: nat)     // the next request of the plan goes out
    | Hear(p: nat)     // its transaction is over
    | Exhaust(p: nat)  // there is nothing more to ask
    | Join(p: nat)     // the joiner collects an ended worker
    | WatchFlag        // the watcher reads the flag
    | WatchRequest     // the watcher looks whether the request is cancelled
    | Cancel           // the request is cancelled
    | Conclude         // all collected: the result is made

  function Start(ports: nat): State {
    State(seq(ports, p => Opening), false, false, Watching, None, None)
  }

  predicate AllJoined(workers: seq<Worker>) {
    forall p :: 0 <= p < |workers| ==> workers[p].Joined?
  }

  /** A worker has a unit to ask or settings to begin yet. */
  predicate HasMore(u: Setup, w: Worker, p: nat)
    requires ValidSetup(u) && p < |u.ports| && (w.AtCheck? || w.Cleared? || w.OnWire?)
  {
    w.asked < |u.plans[p]| || w.begun < u.settings
  }

  /** Whether the worker `w` of port `p` can take this step of its own. */
  predicate Ready(u: Setup, w: Worker, p: nat, step: Step)
    requires ValidSetup(u) && p < |u.ports|
  {
    match step
    case Open(_) => w.Opening?
    case Check(_) => w.AtCheck? && HasMore(u, w, p)
    case Begin(_) => w.Cleared? && w.begun < u.settings
    case Send(_) => w.Cleared? && w.asked < |u.plans[p]|
    case Hear(_) => w.OnWire? && w.asked < |u.plans[p]|
    case Exhaust(_) => w.AtCheck? && w.asked == |u.plans[p]| && w.begun == u.settings
    case Join(_) => w.Ended?
    case _ => false
  }

  predicate OfWorker(step: Step) {
    step.Open? || step.Check? || step.Begin? || step.Send? || step.Hear? || step.Exhaust? || step.Join?
  }

  predicate Enabled(u: Setup, s: State, step: Step)
    requires ValidSetup(u) && |s.workers| == |u.ports|
  {
    if OfWorker(step) then step.p < |s.workers| && Ready(u, s.workers[step.p], step.p, step)
    else
      match step
      case WatchFlag => s.watcher.Watching?
      case WatchRequest => s.watcher.Looking?
      case Cancel => true
      case Conclude => AllJoined(s.workers) && s.verdict.None?
      case _ => false
  }

  function FoundOf(ask: Ask, reply: Option<Reply>): Found
    requires IsAnswer(reply)
  {
    Found(ask.0, ask.1, if reply.value.Exception? then Some(reply.value.code) else None)
  }

  /** The worker after the transaction for request `n` of the plan. */
  function AfterReply(port: Port, n: nat, ask: Ask, begun: nat): Worker
    requires ask.1 < 256
  {
    if Failed(port, n, ask) then Ended(n + 1, PortFailed)
    else if IsAnswer(Heard(port, n, ask)) then Ended(n + 1, Answered(FoundOf(ask, Heard(port, n, ask))))
    else AtCheck(n + 1, begun)
  }

  function Next(u: Setup, w: Worker, p: nat, step: Step, stop: bool): Worker
    requires ValidSetup(u) && p < |u.ports| && OfWorker(step) && Ready(u, w, p, step)
  {
    match step
    case Open(_) => if u.ports[p].opens then AtCheck(0, 0) else Ended(0, PortFailed)
    case Check(_) => if stop then Ended(w.asked, Stopped) else Cleared(w.asked, w.begun)
    case Begin(_) => AtCheck(w.asked, w.begun + 1)
    case Send(_) => OnWire(w.asked, w.begun)
    case Hear(_) => AfterReply(u.ports[p], w.asked, u.plans[p][w.asked], w.begun)
    case Exhaust(_) => Ended(w.asked, PlanDone)
    case Join(_) => Joined(w.asked, w.end)
    case _ => w
  }

  /** What the result says: `was_cancelled` also when the watcher is still running. */
  function VerdictOf(s: State): Verdict {
    if s.found.Some? then FoundIt
    else if !s.watcher.Finished? || s.watcher.cancelled then CancelledIt
    else Complete
  }

  function Do(u: Setup, s: State, step: Step): (s': State)
    requires ValidSetup(u) && |s.workers| == |u.ports| && Enabled(u, s, step)
    ensures |s'.workers| == |s.workers|
  {
    if OfWorker(step) then
      var w := s.workers[step.p];
      var s' := s.(workers := s.workers[step.p := Next(u, w, step.p, step, s.stop)]);
      if step.Join? && s.found.None? && w.end.Answered?
      then s'.(found := Some(Hit(step.p, w.end.found)), stop := true) else s'
    else
      match step
      case WatchFlag => s.(watcher := if s.stop then Finished(false) else Looking)
      case WatchRequest => if s.cancelled then s.(watcher := Finished(true), stop := true) else s.(watcher := Watching)
      case Cancel => s.(cancelled := true)
      case Conclude => s.(verdict := Some(VerdictOf(s)), stop := true)
      case _ => s
  }

  /** An interleaving: any enabled step may be next. */
  ghost predicate IsRun(u: Setup, states: seq<State>, steps: seq<Step>) {
    && ValidSetup(u)
    && |states| == |steps| + 1
    && states[0] == Start(|u.ports|)
    && (forall i :: 0 <= i < |states| ==> |states[i].workers| == |u.ports|)
    && forall i :: 0 <= i < |steps| ==> Enabled(u, states[i], steps[i]) && states[i + 1] == Do(u, states[i], steps[i])
  }

  // ----- What holds of every worker -----

  /** What a worker that waited for `asked` replies and ended so has found out. */
  ghost predicate EndOk(port: Port, plan: seq<Ask>, asked: nat, end: End)
    requires Asks8(plan)
  {
    && asked <= |plan|
    && (end.PortFailed? || port.opens)
    && match end
       case Answered(found) => FoundLast(port, plan[..asked], found)
       case PlanDone => asked == |plan| && AllSilent(port, plan)
       case PortFailed => !port.opens || FailedLast(port, plan[..asked])
       case Stopped => AllSilent(port, plan[..asked])
  }

  ghost predicate WorkerOk(port: Port, plan: seq<Ask>, w: Worker)
    requires Asks8(plan)
  {
    match w
    case Opening => true
    case Ended(asked, end) => EndOk(port, plan, asked, end)
    case Joined(asked, end) => EndOk(port, plan, asked, end)
    case _ => port.opens && w.asked <= |plan| && AllSilent(port, plan[..w.asked]) && (w.OnWire? ==> w.asked < |plan|)
  }

  /** A transaction keeps it: the reply of the plan's next request ends the scan or is silence. */
  lemma ReplyOk(port: Port, plan: seq<Ask>, n: nat, begun: nat)
    requires Asks8(plan) && port.opens && n < |plan| && AllSilent(port, plan[..n])
    ensures WorkerOk(port, plan, AfterReply(port, n, plan[n], begun))
  {
    hide AllSilent, FoundLast, FailedLast, Failed, Heard, IsAnswer;
    SilentStep(port, plan[..n], plan[n]);
    assert plan[..n] + [plan[n]] == plan[..n + 1];
  }

  lemma NextOk(u: Setup, w: Worker, p: nat, step: Step, stop: bool)
    requires ValidSetup(u) && p < |u.ports| && OfWorker(step) && Ready(u, w, p, step)
    requires WorkerOk(u.ports[p], u.plans[p], w)
    ensures WorkerOk(u.ports[p], u.plans[p], Next(u, w, p, step, stop))
  {
    hide FoundLast, FailedLast, AfterReply;
    var plan := u.plans[p];
    if step.Hear? {
      ReplyOk(u.ports[p], plan, w.asked, w.begun);
    } else if step.Exhaust? {
      assert plan[..w.asked] == plan;
    }
  }

  ghost predicate WorkersOk(u: Setup, s: State)
    requires ValidSetup(u) && |s.workers| == |u.ports|
  {
    forall p :: 0 <= p < |s.workers| ==> WorkerOk(u.ports[p], u.plans[p], s.workers[p])
  }

  // ----- What holds of what they share -----

  /** Some collected worker had this hit. */
  predicate JoinedHit(workers: seq<Worker>, hit: Hit) {
    hit.port < |workers| && workers[hit.port].Joined? && workers[hit.port].end == Answered(hit.found)
  }

  predicate EndedBy(w: Worker, end: End) {
    (w.Ended? || w.Joined?) && w.end == end
  }

  ghost predicate Inv(s: State) {
    // `found` is one collected worker's hit, and there is none only if no collected worker had one.
    && (s.found.Some? ==> JoinedHit(s.workers, s.found.value))
    && (s.found.None? ==> forall p :: 0 <= p < |s.workers| && s.workers[p].Joined? ==> !s.workers[p].end.Answered?)
    // The flag is set for a reason.
    && (s.stop ==> s.found.Some? || s.verdict.Some? || (s.cancelled && s.watcher == Finished(true)))
    && (s.found.Some? || s.verdict.Some? || s.watcher == Finished(true) ==> s.stop)
    && (s.watcher == Finished(true) ==> s.cancelled)
    && (s.watcher == Finished(false) ==> s.found.Some? || s.verdict.Some?)
    // Workers are told to stop only by it.
    && (forall p :: 0 <= p < |s.workers| && EndedBy(s.workers[p], Stopped) ==> s.stop)
    && (s.verdict.Some? ==>
          && AllJoined(s.workers)
          && (s.verdict == Some(FoundIt) <==> s.found.Some?)
          && s.verdict != Some(Complete)
          && (s.found.None? && !s.cancelled ==>
                forall p :: 0 <= p < |s.workers| ==> s.workers[p].end != Stopped))
  }

  lemma StartInv(u: Setup)
    requires ValidSetup(u)
    ensures Inv(Start(|u.ports|)) && WorkersOk(u, Start(|u.ports|))
  {}

  /** A worker's own step; only a set flag stops it. */
  lemma WorkerStepInv(s: State, p: nat, w: Worker)
    requires Inv(s) && p < |s.workers| && !s.workers[p].Joined? && !w.Joined?
    requires w.Ended? && w.end == Stopped ==> s.stop
    ensures Inv(s.(workers := s.workers[p := w]))
  {}

  lemma JoinInv(u: Setup, s: State, p: nat)
    requires ValidSetup(u) && |s.workers| == |u.ports| && Inv(s) && Enabled(u, s, Join(p))
    ensures Inv(Do(u, s, Join(p)))
  {}

  lemma SharedStepInv(u: Setup, s: State, step: Step)
    requires ValidSetup(u) && |s.workers| == |u.ports| && Inv(s) && Enabled(u, s, step) && !OfWorker(step)
    ensures Inv(Do(u, s, step))
  {}

  lemma StepInv(u: Setup, s: State, step: Step)
    requires ValidSetup(u) && |s.workers| == |u.ports| && Inv(s) && Enabled(u, s, step)
    ensures Inv(Do(u, s, step))
  {
    hide Inv;
    if step.Join? {
      JoinInv(u, s, step.p);
    } else if OfWorker(step) {
      WorkerStepInv(s, step.p, Next(u, s.workers[step.p], step.p, step, s.stop));
    } else {
      SharedStepInv(u, s, step);
    }
  }

  lemma StepOk(u: Setup, s: State, step: Step)
    requires ValidSetup(u) && |s.workers| == |u.ports| && Enabled(u, s, step) && WorkersOk(u, s)
    ensures WorkersOk(u, Do(u, s, step))
  {
    hide WorkerOk, Next, Ready;
    if OfWorker(step) {
      NextOk(u, s.workers[step.p], step.p, step, s.stop);
    }
  }

  lemma {:induction false} RunInv(u: Setup, states: seq<State>, steps: seq<Step>, i: nat)
    requires IsRun(u, states, steps) && i < |states|
    ensures Inv(states[i]) && WorkersOk(u, states[i])
    decreases i
  {
    hide Inv, WorkersOk, Do, Enabled;
    if i == 0 {
      StartInv(u);
    } else {
      RunInv(u, states, steps, i - 1);
      StepInv(u, states[i - 1], steps[i - 1]);
      StepOk(u, states[i - 1], steps[i - 1]);
    }
  }

  // ----- What holds of every run -----

  lemma SharedStays(u: Setup, s: State, step: Step)
    requires ValidSetup(u) && |s.workers| == |u.ports| && Enabled(u, s, step)
    ensures var s' := Do(u, s, step);
            && (s.found.Some? ==> s'.found == s.found)
            && (s.stop ==> s'.stop) && (s.cancelled ==> s'.cancelled)
            && (forall p :: 0 <= p < |s.workers| && s.workers[p].Joined? ==> s'.workers[p] == s.workers[p])
  {}

  /** In every interleaving, once `found` is set it is never written again, and the stop flag, a
      cancellation and what a collected worker brought stay. */
  lemma {:induction false} FoundWrittenOnce(u: Setup, states: seq<State>, steps: seq<Step>, i: nat, j: nat)
    requires IsRun(u, states, steps) && i <= j < |states|
    ensures states[i].found.Some? ==> states[j].found == states[i].found
    ensures states[i].stop ==> states[j].stop
    ensures states[i].cancelled ==> states[j].cancelled
    ensures forall p :: 0 <= p < |u.ports| && states[i].workers[p].Joined? ==>
             states[j].workers[p] == states[i].workers[p]
    decreases j
  {
    hide Do, Enabled;
    if i < j {
      FoundWrittenOnce(u, states, steps, i, j - 1);
      SharedStays(u, states[j - 1], steps[j - 1]);
    }
  }

  lemma NotCleared(u: Setup, s: State, step: Step, p: nat)
    requires ValidSetup(u) && |s.workers| == |u.ports| && Enabled(u, s, step)
    requires p < |u.ports| && s.stop && !s.workers[p].Cleared?
    ensures !Do(u, s, step).workers[p].Cleared?
  {}

  /** After the flag is set, a worker that is not past its check never gets past it. */
  lemma {:induction false} NeverClearedAgain(u: Setup, states: seq<State>, steps: seq<Step>, p: nat, i: nat, j: nat)
    requires IsRun(u, states, steps) && i <= j < |states| && p < |u.ports|
    requires states[i].stop && !states[i].workers[p].Cleared?
    ensures !states[j].workers[p].Cleared?
    decreases j
  {
    hide Do, Enabled;
    if i < j {
      NeverClearedAgain(u, states, steps, p, i, j - 1);
      FoundWrittenOnce(u, states, steps, i, j - 1);
      NotCleared(u, states[j - 1], steps[j - 1], p);
    }
  }

  /** No port starts more than one more request once the flag is set. */
  lemma OneMoreRequest(u: Setup, states: seq<State>, steps: seq<Step>, p: nat, i: nat, j: nat, k: nat)
    requires IsRun(u, states, steps) && i <= j < k < |steps|
    requires states[i].stop && steps[j] == Send(p)
    ensures steps[k] != Send(p)
  {
    hide Ready, Next;
    SendGoesOut(u, states[j], p);
    FoundWrittenOnce(u, states, steps, i, j + 1);
    NeverClearedAgain(u, states, steps, p, j + 1, k);
    if steps[k] == Send(p) {
      SendGoesOut(u, states[k], p);
    }
  }

  lemma SendGoesOut(u: Setup, s: State, p: nat)
    requires ValidSetup(u) && |s.workers| == |u.ports| && Enabled(u, s, Send(p))
    ensures p < |s.workers| && s.workers[p].Cleared? && Do(u, s, Send(p)).workers[p].OnWire?
  {}

  lemma StaysOnWire(u: Setup, s: State, step: Step, p: nat)
    requires ValidSetup(u) && |s.workers| == |u.ports| && Enabled(u, s, step)
    requires p < |u.ports| && s.workers[p].OnWire? && step != Hear(p)
    ensures Do(u, s, step).workers[p].OnWire?
  {}

  /** A request stays on the wire until its transaction is over. */
  lemma {:induction false} WireBusy(u: Setup, states: seq<State>, steps: seq<Step>, p: nat, i: nat, j: nat)
    requires IsRun(u, states, steps) && i < j < |states| && steps[i] == Send(p)
    requires forall k :: i < k < j ==> steps[k] != Hear(p)
    ensures p < |u.ports| && states[j].workers[p].OnWire?
    decreases j
  {
    hide Do, Enabled;
    if i + 1 < j {
      WireBusy(u, states, steps, p, i, j - 1);
      StaysOnWire(u, states[j - 1], steps[j - 1], p);
    } else {
      SendGoesOut(u, states[i], p);
    }
  }

  /** Between two requests on one port the first one's transaction is over. */
  lemma OneRequestOnTheWire(u: Setup, states: seq<State>, steps: seq<Step>, p: nat, i: nat, j: nat)
    requires IsRun(u, states, steps) && i < j < |steps| && steps[i] == steps[j] == Send(p)
    ensures exists k :: i < k < j && steps[k] == Hear(p)
  {
    hide Do;
    if forall k :: i < k < j ==> steps[k] != Hear(p) {
      WireBusy(u, states, steps, p, i, j);
      SendGoesOut(u, states[j], p);
    }
  }

  /** How many more steps a worker can take once the flag is set, being collected included. */
  function StepsLeft(w: Worker): nat {
    match w
    case Cleared(_, _) => 4
    case OnWire(_, _) => 3
    case Opening => 3
    case AtCheck(_, _) => 2
    case Ended(_, _) => 1
    case Joined(_, _) => 0
  }

  lemma OneStepLess(u: Setup, s: State, step: Step, p: nat)
    requires ValidSetup(u) && |s.workers| == |u.ports| && s.stop && Enabled(u, s, step) && p < |s.workers|
    ensures var s' := Do(u, s, step);
            && StepsLeft(s'.workers[p]) <= StepsLeft(s.workers[p])
            && (OfWorker(step) && step.p == p ==> StepsLeft(s'.workers[p]) < StepsLeft(s.workers[p]))
  {}

  /** How many of the steps from `i` up to `j` are those of worker `p`, its collection included. */
  function StepsOf(steps: seq<Step>, p: nat, i: nat, j: nat): nat
    requires i <= j <= |steps|
    decreases j
  {
    if i == j then 0
    else StepsOf(steps, p, i, j - 1) + if OfWorker(steps[j - 1]) && steps[j - 1].p == p then 1 else 0
  }

  lemma {:induction false} StepsUsedUp(u: Setup, states: seq<State>, steps: seq<Step>, p: nat, i: nat, j: nat)
    requires IsRun(u, states, steps) && i <= j < |states| && states[i].stop && p < |u.ports|
    ensures StepsOf(steps, p, i, j) + StepsLeft(states[j].workers[p]) <= StepsLeft(states[i].workers[p])
    decreases j
  {
    hide Do, Enabled, StepsLeft;
    if i < j {
      StepsUsedUp(u, states, steps, p, i, j - 1);
      FoundWrittenOnce(u, states, steps, i, j - 1);
      OneStepLess(u, states[j - 1], steps[j - 1], p);
    }
  }

  /** In every interleaving, once the flag is set each worker takes at most four more steps, being
      collected the last of them. */
  lemma StopsSoon(u: Setup, states: seq<State>, steps: seq<Step>, p: nat, i: nat, j: nat)
    requires IsRun(u, states, steps) && i <= j < |states| && states[i].stop && p < |u.ports|
    ensures StepsOf(steps, p, i, j) <= 4
    ensures StepsOf(steps, p, i, j) == 4 ==> states[j].workers[p].Joined?
  {
    hide IsRun;
    StepsUsedUp(u, states, steps, p, i, j);
    RunFits(u, states, steps, i);
    RunFits(u, states, steps, j);
    assert StepsLeft(states[i].workers[p]) <= 4;
    assert StepsLeft(states[j].workers[p]) == 0 ==> states[j].workers[p].Joined?;
  }

  // ----- Cancellation -----

  lemma CancelStays(u: Setup, s: State, step: Step)
    requires ValidSetup(u) && |s.workers| == |u.ports| && Enabled(u, s, step)
    ensures step == Cancel ==> Do(u, s, step).cancelled
    ensures step == WatchFlag ==> Do(u, s, step).watcher == if s.stop then Finished(false) else Looking
    ensures step == WatchRequest && s.cancelled ==> Do(u, s, step).stop && Do(u, s, step).watcher == Finished(true)
    ensures step == WatchRequest && !s.cancelled ==> Do(u, s, step).watcher == Watching && Do(u, s, step).stop == s.stop
  {}

  /** In every interleaving, when the request has been cancelled and the watcher looks, the flag is set and
      the watcher is done; and from then on no worker takes more than four steps, its collection included,
      and no port starts more than one request. */
  lemma CancelStopsScan(u: Setup, states: seq<State>, steps: seq<Step>, i: nat, j: nat, k: nat, p: nat)
    requires IsRun(u, states, steps) && i < j < k <= |steps| && p < |u.ports|
    requires steps[i] == Cancel && steps[j] == WatchRequest
    ensures states[j + 1].stop && states[j + 1].watcher == Finished(true)
    ensures StepsOf(steps, p, j + 1, k) <= 4
    ensures forall l, m :: j < l < m < |steps| && steps[l] == Send(p) ==> steps[m] != Send(p)
  {
    hide Do, Enabled;
    CancelStays(u, states[i], steps[i]);
    FoundWrittenOnce(u, states, steps, i + 1, j);
    CancelStays(u, states[j], steps[j]);
    StopsSoon(u, states, steps, p, j + 1, k);
    forall l, m | j < l < m < |steps| && steps[l] == Send(p)
      ensures steps[m] != Send(p)
    {
      OneMoreRequest(u, states, steps, p, j + 1, l, m);
    }
  }

  /** The watcher gets there: until it is done it can take its next step, and after one that finds the
      flag clear it looks at the request. */
  lemma WatcherLooks(u: Setup, states: seq<State>, steps: seq<Step>, i: nat)
    requires IsRun(u, states, steps) && i < |states| && !states[i].watcher.Finished?
    ensures ValidSetup(u) && |states[i].workers| == |u.ports|
    ensures Enabled(u, states[i], if states[i].watcher.Watching? then WatchFlag else WatchRequest)
    ensures states[i].watcher.Watching? && !states[i].stop ==> Do(u, states[i], WatchFlag).watcher == Looking
    ensures states[i].watcher.Watching? && states[i].stop ==> Do(u, states[i], WatchFlag).watcher == Finished(false)
  {}

  // ----- Every run comes to its end -----

  /** The counts of a worker stay within what there is, and it is past its check only if there is more. */
  predicate Counted(u: Setup, w: Worker, p: nat)
    requires ValidSetup(u) && p < |u.ports|
  {
    match w
    case Opening => true
    case Ended(_, _) => true
    case Joined(_, _) => true
    case _ => w.asked <= |u.plans[p]| && w.begun <= u.settings && (w.Cleared? ==> HasMore(u, w, p))
              && (w.OnWire? ==> w.asked < |u.plans[p]|)
  }

  /** How many more steps a worker can ever take, being collected included. */
  function Budget(u: Setup, w: Worker, p: nat): nat
    requires ValidSetup(u) && p < |u.ports| && Counted(u, w, p)
  {
    match w
    case Opening => 3 * (|u.plans[p]| + u.settings) + 3
    case AtCheck(asked, begun) => 3 * (|u.plans[p]| - asked + u.settings - begun) + 2
    case Cleared(asked, begun) => 3 * (|u.plans[p]| - asked + u.settings - begun) + 1
    case OnWire(asked, begun) => 3 * (|u.plans[p]| - asked + u.settings - begun)
    case Ended(_, _) => 1
    case Joined(_, _) => 0
  }

  lemma NextCounts(u: Setup, w: Worker, p: nat, step: Step, stop: bool)
    requires ValidSetup(u) && p < |u.ports| && OfWorker(step) && Ready(u, w, p, step) && Counted(u, w, p)
    ensures var w' := Next(u, w, p, step, stop); Counted(u, w', p) && Budget(u, w', p) < Budget(u, w, p)
  {
    hide Failed, Heard, IsAnswer;
  }

  lemma DoCounts(u: Setup, s: State, step: Step, p: nat)
    requires ValidSetup(u) && |s.workers| == |u.ports| && Enabled(u, s, step) && p < |u.ports|
    requires Counted(u, s.workers[p], p)
    ensures var s' := Do(u, s, step);
            && Counted(u, s'.workers[p], p) && Budget(u, s'.workers[p], p) <= Budget(u, s.workers[p], p)
            && (OfWorker(step) && step.p == p ==> Budget(u, s'.workers[p], p) < Budget(u, s.workers[p], p))
  {
    hide Counted, Budget, Next, Ready;
    if OfWorker(step) && step.p == p {
      NextCounts(u, s.workers[p], p, step, s.stop);
    }
  }

  lemma {:induction false} BudgetUsedUp(u: Setup, states: seq<State>, steps: seq<Step>, p: nat, j: nat)
    requires IsRun(u, states, steps) && j < |states| && p < |u.ports|
    ensures Counted(u, states[j].workers[p], p)
    ensures StepsOf(steps, p, 0, j) + Budget(u, states[j].workers[p], p) <= 3 * (|u.plans[p]| + u.settings) + 3
    decreases j
  {
    hide Do, Enabled;
    if j > 0 {
      hide Counted, Budget;
      BudgetUsedUp(u, states, steps, p, j - 1);
      DoCounts(u, states[j - 1], steps[j - 1], p);
    }
  }

  /** In every interleaving, stopped or not, no worker takes more steps than three for each unit of its
      plan and each of the settings, and three besides. */
  lemma WorkersEnd(u: Setup, states: seq<State>, steps: seq<Step>, p: nat, j: nat)
    requires IsRun(u, states, steps) && j < |states| && p < |u.ports|
    ensures StepsOf(steps, p, 0, j) <= 3 * (|u.plans[p]| + u.settings) + 3
  {
    hide IsRun, Budget;
    BudgetUsedUp(u, states, steps, p, j);
  }

  /** The step worker `w` of port `p` can take next. */
  function NextStep(u: Setup, w: Worker, p: nat): Step
    requires ValidSetup(u) && p < |u.ports|
  {
    match w
    case Opening => Open(p)
    case AtCheck(_, _) => if HasMore(u, w, p) then Check(p) else Exhaust(p)
    case Cleared(asked, _) => if asked < |u.plans[p]| then Send(p) else Begin(p)
    case OnWire(_, _) => Hear(p)
    case Ended(_, _) => Join(p)
    case Joined(_, _) => Conclude
  }

  /** And no run is ever stuck before it has its result: every worker not yet collected can take a step,
      and when all are, the result can be made. */
  lemma NeverStuck(u: Setup, states: seq<State>, steps: seq<Step>, i: nat)
    requires IsRun(u, states, steps) && i < |states| && states[i].verdict.None?
    ensures ValidSetup(u) && |states[i].workers| == |u.ports|
    ensures forall p: nat :: p < |u.ports| && !states[i].workers[p].Joined? ==>
              Enabled(u, states[i], NextStep(u, states[i].workers[p], p))
    ensures AllJoined(states[i].workers) ==> Enabled(u, states[i], Conclude)
  {
    hide IsRun, Budget;
    RunFits(u, states, steps, i);
    forall p: nat | p < |u.ports| && !states[i].workers[p].Joined?
      ensures Enabled(u, states[i], NextStep(u, states[i].workers[p], p))
    {
      BudgetUsedUp(u, states, steps, p, i);
    }
  }

  /** The result of every run, over any ports. It reports a hit exactly when some port's scan ended with
      one, and then one of those: the last thing that port was asked, and the first to answer. Unless
      there is one or the request was cancelled, every port's whole plan was asked and met with
      silence, or the port could not be opened or failed. */
  lemma ResultIsRight(u: Setup, states: seq<State>, steps: seq<Step>, i: nat)
    requires IsRun(u, states, steps) && i < |states| && states[i].verdict.Some?
    ensures var s := states[i];
            && |s.workers| == |u.ports| && AllJoined(s.workers)
            && (s.verdict == Some(FoundIt) <==> s.found.Some?)
            && (s.found.Some? <==> exists hit :: JoinedHit(s.workers, hit))
            && (s.found.Some? ==>
                  var hit := s.found.value;
                  && JoinedHit(s.workers, hit) && u.ports[hit.port].opens
                  && var asked := s.workers[hit.port].asked;
                     asked <= |u.plans[hit.port]|
                         && FoundLast(u.ports[hit.port], u.plans[hit.port][..asked], hit.found))
            && (s.found.None? && !s.cancelled ==>
                  forall p :: 0 <= p < |u.ports| ==>
                    var asked := s.workers[p].asked;
                    && asked <= |u.plans[p]|
                    && ((asked == |u.plans[p]| && AllSilent(u.ports[p], u.plans[p]))
                        || !u.ports[p].opens || FailedLast(u.ports[p], u.plans[p][..asked])))
  {
    hide IsRun, FoundLast, FailedLast, AllSilent;
    assert ValidSetup(u) && |states[i].workers| == |u.ports| by { RunFits(u, states, steps, i); }
    RunInv(u, states, steps, i);
    var s := states[i];
    assert AllJoined(s.workers);
    if s.found.Some? {
      var p := s.found.value.port;
      assert WorkerOk(u.ports[p], u.plans[p], s.workers[p]);
    } else if !s.cancelled {
      forall p | 0 <= p < |u.ports|
        ensures EndOk(u.ports[p], u.plans[p], s.workers[p].asked, s.workers[p].end)
             && s.workers[p].end != Stopped && !s.workers[p].end.Answered?
      {
        assert WorkerOk(u.ports[p], u.plans[p], s.workers[p]);
      }
    }
  }

  lemma NeverReadWrite(port: Port, settings: seq<Settings>, report: Report)
    ensures SettingError(port, settings) != Some(ReadWriteFailed)
    ensures ErrorSoFar(port, settings, report) ==> report.error != Some(ReadWriteFailed)
  {
    hide SettingError;
    SettingErrorIs(port, settings);
    if ErrorSoFar(port, settings, report) {
      var i: nat :| i <= |settings| && report.error == SettingError(port, settings[..i]);
      SettingErrorIs(port, settings[..i]);
    }
  }

  /** What a worker runs: `scan_port`, here with the way it ended. Whatever the port does and whenever the
      flag is set, that is one of the ends a worker can come to, with just what was asked by then. */
  method Work(port: Port, settings: seq<Settings>, units: seq<nat>, stop: nat -> bool)
    returns (report: Report, found: Option<Found>, end: End)
    requires Units8(units) && Asks8(Plan(Taken(port, settings), units))
    ensures EndOk(port, Plan(Taken(port, settings), units), report.unitsTried, end)
    ensures found == if end.Answered? then Some(end.found) else None
    ensures end == Stopped ==> exists load: nat :: stop(load) && forall l: nat :: l < load ==> !stop(l)
    ensures end == PlanDone ==> report.settingsTried == Taken(port, settings)
    ensures forall load: nat :: stop(load) ==> report.unitsTried <= load
  {
    hide Plan, Taken, FoundLast, FailedLast, AllSilent, Tallied, ErrorSoFar, SettingError, Asks8, Units8;
    ghost var asked;
    var loads;
    report, found, asked, loads := ScanPort.ScanPort(port, settings, units, stop);
    ghost var plan := Plan(Taken(port, settings), units);
    TalliedLength(port, report, asked);
    assert asked == plan[..report.unitsTried];
    NeverReadWrite(port, settings, report);
    if found.Some? {
      return report, found, Answered(found.value);
    }
    if !port.opens || report.error == Some(ReadWriteFailed) {
      return report, None, PortFailed;
    }
    if loads > 0 && stop(loads - 1) {
      assert Unset(stop, loads - 1);
      return report, None, Stopped;
    }
    assert plan[..|plan|] == plan;
    return report, None, PlanDone;
  }

  lemma RunFits(u: Setup, states: seq<State>, steps: seq<Step>, i: nat)
    requires IsRun(u, states, steps) && i < |states|
    ensures ValidSetup(u) && |states[i].workers| == |u.ports|
  {}

  /** But "complete" is a word no run ever says: a scan that ends without a hit is always called
      cancelled, and one with a hit never. */
  lemma CompleteIsNeverReported(u: Setup, states: seq<State>, steps: seq<Step>, i: nat)
    requires IsRun(u, states, steps) && i < |states| && states[i].verdict.Some?
    ensures states[i].verdict == Some(if states[i].found.Some? then FoundIt else CancelledIt)
  {
    hide IsRun, WorkersOk, AllJoined;
    RunFits(u, states, steps, i);
    RunInv(u, states, steps, i);
    var verdict := states[i].verdict.value;
    assert verdict == FoundIt || verdict == CancelledIt || verdict == Complete;
  }

  /** Such as the scan of a single port that does not open, which nobody cancelled. */
  lemma CancelledByNobody(port: Port, plan: seq<Ask>, settings: nat) returns (states: seq<State>, steps: seq<Step>)
    requires !port.opens && Asks8(plan)
    ensures IsRun(Setup([port], [plan], settings), states, steps)
    ensures |states| > 0 && var s := states[|states| - 1]; !s.cancelled && s.verdict == Some(CancelledIt)
  {
    hide Asks8;
    var u := Setup([port], [plan], settings);
    var s0 := Start(1);
    var s1 := s0.(workers := [Ended(0, PortFailed)]);
    var s2 := s0.(workers := [Joined(0, PortFailed)]);
    var s3 := s2.(verdict := Some(CancelledIt), stop := true);
    assert s0.workers[0 := Ended(0, PortFailed)] == s1.workers && s1.workers[0 := Joined(0, PortFailed)] == s2.workers;
    assert Enabled(u, s0, Open(0)) && Do(u, s0, Open(0)) == s1;
    assert Enabled(u, s1, Join(0)) && Do(u, s1, Join(0)) == s2;
    assert Enabled(u, s2, Conclude) && Do(u, s2, Conclude) == s3;
    states, steps := [s0, s1, s2, s3], [Open(0), Join(0), Conclude];
  }

  // ----- The whole scan, with the plans it makes -----

  /** What `scan_modbus` sets its workers to. */
  function SetupFor(ports: seq<Port>, hintUnits: seq<nat>, hintSettings: seq<Settings>): Setup {
    Setup(ports,
          seq(|ports|, p requires 0 <= p < |ports| =>
            Plan(Taken(ports[p], SettingsToTry(hintSettings)), Units(hintUnits))),
          |SettingsToTry(hintSettings)|)
  }

  /** Some unit answers, at settings that are scanned, on a port that opens. */
  ghost predicate SomeUnitAnswers(ports: seq<Port>, hintSettings: seq<Settings>) {
    exists p: nat, s: Settings, unit: nat ::
      && p < |ports| && ports[p].opens && (s in hintSettings || s in SETTINGS) && ports[p].takes(s) && IsUnit(unit)
      && Answers(ports[p], s, unit)
  }

  /** Over steady ports, whatever is hinted and however the threads interleave, a scan that is not
      cancelled finds a device if and only if there is one anywhere to be found; and what it finds
      answers, and is the first in its own port's order that does. */
  lemma ScanFindsWhatIsThere(ports: seq<Port>, hintUnits: seq<nat>, hintSettings: seq<Settings>,
                             states: seq<State>, steps: seq<Step>, i: nat)
    requires forall p :: 0 <= p < |ports| && ports[p].opens ==> Steady(ports[p])
    requires IsRun(SetupFor(ports, hintUnits, hintSettings), states, steps)
    requires i < |states| && states[i].verdict.Some?
    ensures var s := states[i];
            var u := SetupFor(ports, hintUnits, hintSettings);
            && (s.found.Some? ==> SomeUnitAnswers(ports, hintSettings))
            && (!s.cancelled ==> (s.found.Some? <==> SomeUnitAnswers(ports, hintSettings)))
            && (s.found.Some? ==>
                  var hit := s.found.value;
                  && hit.port < |ports| && s.workers[hit.port].Joined? && s.workers[hit.port].asked > 0
                  && Asks8(u.plans[hit.port])
                  && FirstAnswer(ports[hit.port], u.plans[hit.port], s.workers[hit.port].asked - 1)
                  && u.plans[hit.port][s.workers[hit.port].asked - 1] == (hit.found.settings, hit.found.unit))
  {
    hide IsRun, FoundLast, FailedLast, AllSilent, Plan, Taken, Steady, FirstAnswer, Units, SettingsToTry, Answers;
    var u := SetupFor(ports, hintUnits, hintSettings);
    var s := states[i];
    RunFits(u, states, steps, i);
    RunInv(u, states, steps, i);
    ResultIsRight(u, states, steps, i);
    if s.found.Some? {
      var hit := s.found.value;
      var port, plan, asked := ports[hit.port], u.plans[hit.port], s.workers[hit.port].asked;
      FoundIsFirst(port, plan, plan[..asked], hit.found);
      HitIsReal(port, hintUnits, hintSettings, asked - 1);
    } else if !s.cancelled && SomeUnitAnswers(ports, hintSettings) {
      var p: nat, t: Settings, unit: nat :|
        && p < |ports| && ports[p].opens && (t in hintSettings || t in SETTINGS) && ports[p].takes(t) && IsUnit(unit)
        && Answers(ports[p], t, unit);
      NotFailedLast(ports[p], u.plans[p][..s.workers[p].asked]);
      NothingMissed(ports[p], hintUnits, hintSettings);
      assert false;
    }
  }
}
