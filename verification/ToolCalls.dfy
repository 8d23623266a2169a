/** That a tool call of `NetApply` is a run of a command as `CommandRunner` has it: what `Runner::run`
    (src/diag.rs) makes of `run_command` (src/executor.rs), and nothing else. */
module ToolCalls {
  import opened Wrappers
  import opened CommandRunner
  import NetworkManager
  import NetApply

  /** When the command's process group was last alive. */
  function LastMoment(o: Outside, timeout: nat, res: CommandResult): nat {
    if res.exitCode.Some? then res.end
    else if res.cancelled && o.cancel.Some? then o.cancel.value
    else timeout
  }

  /** A run of a found tool, and when its request gets to NetworkManager, if ever: not after it was
      killed; and a tool that reports success had its request done. */
  ghost predicate IsRun(w: NetApply.World, request: NetworkManager.Request, o: Outside, res: CommandResult,
                        kills: seq<nat>, reaches: Moment)
  {
    && Ran(o, NetApply.Timeout(request), Ok(res), kills) && !Missing(Ok(res))
    && (reaches.Some? ==> reaches.value <= LastMoment(o, NetApply.Timeout(request), res))
    && (Check(res) ==> Takes(w, request, reaches))
  }

  /** NetworkManager does what it is asked, if it is asked. */
  predicate Takes(w: NetApply.World, request: NetworkManager.Request, reaches: Moment) {
    && reaches.Some?
    && NetworkManager.Accepts(NetworkManager.Advance(w.nm, w.clock + reaches.value), request)
  }

  /** The request is cancelled by the time the call is over. */
  predicate CancelledBy(o: Outside, end: nat) {
    o.cancel.Some? && o.cancel.value <= end
  }

  /** The event tells of that run. */
  predicate Tells(e: NetApply.Event, w: NetApply.World, request: NetworkManager.Request, o: Outside, res: CommandResult,
                  reaches: Moment)
  {
    && e.ran && e.request == request
    && e.start == w.clock && e.end == w.clock + res.end
    && e.took == Takes(w, request, reaches)
    && (e.took ==> e.at == w.clock + reaches.value)
    && e.good == Check(res)
    && e.cancelled == CancelledBy(o, res.end)
  }

  /** Every run is told of by some event. */
  lemma RunIsCall(w: NetApply.World, request: NetworkManager.Request, o: Outside, res: CommandResult,
                  kills: seq<nat>, reaches: Moment)
    returns (r: NetApply.Reply)
    requires IsRun(w, request, o, res, kills, reaches)
    ensures r.ran && Tells(NetApply.CallEvent(w, request, r), w, request, o, res, reaches)
  {
    hide NetworkManager.Accepts, NetworkManager.Advance, NetworkManager.Execute;
    var timeout := NetApply.Timeout(request);
    var delay := if reaches.Some? then reaches.value else Min(res.end, timeout);
    assert delay <= res.end && delay <= timeout;
    r := NetApply.Reply(true, delay, reaches.Some?, res.end - delay, Check(res), true, 0, CancelledBy(o, res.end));
  }

  /** And every event of a found tool tells of some run: the schedules make nothing up. */
  lemma CallIsRun(w: NetApply.World, request: NetworkManager.Request, r: NetApply.Reply)
    returns (o: Outside, res: CommandResult, kills: seq<nat>, reaches: Moment)
    requires r.ran
    ensures IsRun(w, request, o, res, kills, reaches)
    ensures Tells(NetApply.CallEvent(w, request, r), w, request, o, res, reaches)
  {
    hide NetworkManager.Accepts, NetworkManager.Advance, NetworkManager.Execute;
    var timeout, over := NetApply.Timeout(request), r.delay + r.rest;
    var e := NetApply.CallEvent(w, request, r);
    var code := if e.good then 0 else 1;
    reaches := if r.reached && r.delay <= timeout then Some(r.delay) else None;
    if over <= timeout {
      o := Outside(true, true, Some(over), code, Some(over), if r.cancel then Some(over) else None, None);
      res, kills := CommandResult(Some(code), false, false, true, over), [];
    } else {
      var end := Min(over, timeout + DRAIN_GRACE);
      o := Outside(true, true, None, 0, None, if r.cancel then Some(end) else None, None);
      res, kills := CommandResult(None, true, false, end < timeout + DRAIN_GRACE, end), [timeout];
    }
  }

  /** How long a tool may take, in plain numbers: nmcli's wait and ten seconds for a change, eight for a
      check of the platform, ten for anything else. */
  lemma SucceedsInTime(w: NetApply.World, request: NetworkManager.Request, r: NetApply.Reply)
    requires r.ran && r.reached && r.answered
    requires NetworkManager.Accepts(NetworkManager.Advance(w.nm, w.clock + r.delay), request)
    ensures NetApply.CallEvent(w, request, r).good <==>
              r.delay + r.rest <= match request
                                  case Apply(_, wait) => 1000 * (wait + 10)
                                  case PlatformCheck => 8000
                                  case _ => 10000
  {
    hide NetworkManager.Accepts, NetworkManager.Advance, NetworkManager.Execute;
  }

  /** So whatever `Runner::run` does, the call in the model can do: no answer where it finds no tool or a
      cancelled request, success where its result is checked to be one, in just that time, and with the request found
      cancelled afterwards exactly if it was by then. */
  lemma ToolIsCall(w: NetApply.World, request: NetworkManager.Request, allowHost: bool, place: Place,
                   outcome: bool -> Result<CommandResult, ()>, looks: nat -> bool,
                   result: Result<CommandResult, Refusal>, started: seq<bool>,
                   o: Outside, kills: seq<nat>, reaches: Moment)
    returns (env: NetApply.Schedule)
    requires ComesOf(allowHost, place, outcome, looks, result, started) && (w.cancelled ==> looks(0))
    requires result.Ok? ==> IsRun(w, request, o, result.value, kills, reaches)
    ensures var (w', a) := NetApply.Call(env, w, request);
            && (a.NoTool? <==> result.Err?)
            && (a.Good? <==> result.Ok? && result.value.exitCode == Some(0))
            && (result.Ok? ==> w'.clock == w.clock + result.value.end)
            && (result.Ok? ==> w'.cancelled == CancelledBy(o, result.value.end))
  {
    hide NetApply.CallEvent;
    var missing := NetApply.Reply(false, 0, false, 0, false, false, 0, false);
    var r := missing;
    if result.Ok? {
      r := RunIsCall(w, request, o, result.value, kills, reaches);
    }
    env := n => r;
    MissingTellsNothing(w, request);
    if w.cancelled {
      assert result.Err?;
    } else {
      CallAnswers(env, w, request);
    }
  }

  lemma CallAnswers(env: NetApply.Schedule, w: NetApply.World, request: NetworkManager.Request)
    requires !w.cancelled
    ensures var (w', a) := NetApply.Call(env, w, request);
            var e := NetApply.CallEvent(w, request, env(w.calls));
            && (a.NoTool? <==> !e.ran) && (a.Good? <==> e.ran && e.good)
            && w'.clock == e.end && w'.cancelled == e.cancelled
  {}

  lemma MissingTellsNothing(w: NetApply.World, request: NetworkManager.Request)
    ensures var r := NetApply.Reply(false, 0, false, 0, false, false, 0, false);
            !NetApply.CallEvent(w, request, r).ran
  {}
}
