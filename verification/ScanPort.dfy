/** `scan_port` (src/scan.rs): one port, every setting, every unit, until told to stop or answered.
    The port itself is a parameter: whether it opens, which settings it takes, and what each
    transaction on it returns. The stop flag is what its successive loads return. */
module ScanPort {
  import opened Wrappers
  import opened Frames
  import opened ScanOrder

  datatype Port = Port(
    opens: bool,
    takes: Settings -> bool,
    /** The outcome of the n-th transaction, asking that unit at those settings. */
    transact: (nat, Settings, nat) -> Result<seq<bv8>, ()>)

  datatype Found = Found(settings: Settings, unit: nat, exception: Option<bv8>)

  datatype ScanError = CouldNotOpen | CouldNotSet(settings: Settings) | ReadWriteFailed

  datatype Report = Report(
    settingsTried: seq<Settings>,
    unitsTried: nat,
    noise: nat,
    otherUnitsSeen: seq<bv8>,
    error: Option<ScanError>)

  type Ask = (Settings, nat)

  predicate Units8(units: seq<nat>) {
    forall k :: 0 <= k < |units| ==> units[k] < 256
  }

  /** What the asked unit's transaction amounts to; nothing when it failed. */
  function Heard(port: Port, n: nat, ask: Ask): Option<Reply>
    requires ask.1 < 256
  {
    match port.transact(n, ask.0, ask.1)
    case Err(_) => None
    case Ok(buf) => Classify(ask.1 as bv8, buf)
  }

  predicate Failed(port: Port, n: nat, ask: Ask) {
    port.transact(n, ask.0, ask.1).Err?
  }

  predicate IsAnswer(reply: Option<Reply>) {
    reply.Some? && (reply.value.Data? || reply.value.Exception?)
  }

  predicate IsNoise(reply: Option<Reply>) {
    reply.Some? && (reply.value.OtherUnit? || reply.value.Garbage?)
  }

  predicate Asks8(asked: seq<Ask>) {
    forall k :: 0 <= k < |asked| ==> asked[k].1 < 256
  }

  // ----- The plan -----

  function Row(s: Settings, units: seq<nat>): (r: seq<Ask>)
    ensures |r| == |units|
    ensures forall j :: 0 <= j < |units| ==> r[j] == (s, units[j])
  {
    seq(|units|, j requires 0 <= j < |units| => (s, units[j]))
  }

  /** The settings the port takes, in order. */
  function Taken(port: Port, settings: seq<Settings>): seq<Settings> {
    if settings == [] then []
    else Taken(port, settings[..|settings| - 1])
         + if port.takes(settings[|settings| - 1]) then [settings[|settings| - 1]] else []
  }

  /** What the report says of the settings the port did not take: only the last of them. */
  function SettingError(port: Port, settings: seq<Settings>): Option<ScanError> {
    if settings == [] then None
    else if port.takes(settings[|settings| - 1]) then SettingError(port, settings[..|settings| - 1])
    else Some(CouldNotSet(settings[|settings| - 1]))
  }

  /** Every unit at the first setting, then every unit at the second, and so on. */
  function Plan(settings: seq<Settings>, units: seq<nat>): (p: seq<Ask>)
    ensures |p| == |settings| * |units|
  {
    if settings == [] then []
    else Plan(settings[..|settings| - 1], units) + Row(settings[|settings| - 1], units)
  }

  lemma PlanGrows(settings: seq<Settings>, s: Settings, units: seq<nat>)
    ensures Plan(settings + [s], units) == Plan(settings, units) + Row(s, units)
  {}

  lemma {:induction false} PlanExtends(settings: seq<Settings>, i: nat, units: seq<nat>)
    requires i <= |settings|
    ensures Plan(settings[..i], units) <= Plan(settings, units)
    decreases |settings| - i
  {
    if i == |settings| {
      assert settings[..i] == settings;
    } else {
      PlanExtends(settings, i + 1, units);
      assert settings[..i + 1] == settings[..i] + [settings[i]];
      PlanGrows(settings[..i], settings[i], units);
    }
  }

  lemma {:induction false} TakenExtends(port: Port, settings: seq<Settings>, i: nat)
    requires i <= |settings|
    ensures Taken(port, settings[..i]) <= Taken(port, settings)
    decreases |settings| - i
  {
    if i == |settings| {
      assert settings[..i] == settings;
    } else {
      TakenExtends(port, settings, i + 1);
      assert settings[..i + 1][..i] == settings[..i];
    }
  }

  /** Where the plan asks unit `j` at setting `i`. */
  lemma {:induction false} PlanAt(settings: seq<Settings>, units: seq<nat>, i: nat, j: nat)
    requires i < |settings| && j < |units|
    ensures 0 <= i * |units| + j < |Plan(settings, units)|
    ensures Plan(settings, units)[i * |units| + j] == (settings[i], units[j])
    decreases |settings|
  {
    var shorter := settings[..|settings| - 1];
    assert |Plan(shorter, units)| == (|settings| - 1) * |units|;
    if i < |shorter| {
      PlanAt(shorter, units, i, j);
      assert |Plan(shorter, units)| <= |Plan(settings, units)|;
    } else {
      assert i * |units| == |Plan(shorter, units)|;
    }
  }

  // ----- The scan -----

  function CountNoise(port: Port, asked: seq<Ask>): nat
    requires Asks8(asked)
  {
    if asked == [] then 0
    else
      var n := |asked| - 1;
      CountNoise(port, asked[..n]) + if IsNoise(Heard(port, n, asked[n])) then 1 else 0
  }

  /** The other units heard, first hearings in order. */
  function OthersHeard(port: Port, asked: seq<Ask>): seq<bv8>
    requires Asks8(asked)
  {
    if asked == [] then []
    else
      var n := |asked| - 1;
      var before, reply := OthersHeard(port, asked[..n]), Heard(port, n, asked[n]);
      if reply.Some? && reply.value.OtherUnit? && reply.value.unit !in before
      then before + [reply.value.unit] else before
  }

  /** Nothing asked so far answered or failed. */
  ghost predicate AllSilent(port: Port, asked: seq<Ask>)
    requires Asks8(asked)
  {
    forall n :: 0 <= n < |asked| ==> !Failed(port, n, asked[n]) && !IsAnswer(Heard(port, n, asked[n]))
  }

  /** The report's counts are those of what was asked. */
  ghost predicate Tallied(port: Port, report: Report, asked: seq<Ask>) {
    && Asks8(asked)
    && report.unitsTried == |asked|
    && report.noise == CountNoise(port, asked)
    && report.otherUnitsSeen == OthersHeard(port, asked)
  }

  /** The report as one more reply changes it. */
  function Noted(report: Report, reply: Option<Reply>): Report {
    match reply
    case Some(OtherUnit(u)) =>
      report.(noise := report.noise + 1,
              otherUnitsSeen :=
                if u in report.otherUnitsSeen then report.otherUnitsSeen else report.otherUnitsSeen + [u])
    case Some(Garbage) => report.(noise := report.noise + 1)
    case _ => report
  }

  lemma TallyStep(port: Port, report: Report, asked: seq<Ask>, ask: Ask)
    requires Tallied(port, report, asked) && ask.1 < 256
    ensures Tallied(port, Noted(report.(unitsTried := |asked| + 1), Heard(port, |asked|, ask)), asked + [ask])
  {}

  /** What a scan that asked `asked` on `port` must report. */
  ghost predicate Faithful(port: Port, settings: seq<Settings>, units: seq<nat>, report: Report, asked: seq<Ask>) {
    && Tallied(port, report, asked)
    && report.settingsTried <= Taken(port, settings)
    && asked <= Plan(report.settingsTried, units)
    && asked <= Plan(Taken(port, settings), units)
  }

  /** `asked` ended with an answer, its first, and `found` says which. */
  ghost predicate FoundLast(port: Port, asked: seq<Ask>, found: Found) {
    && |asked| > 0 && Asks8(asked)
    && var n := |asked| - 1;
       && AllSilent(port, asked[..n])
       && !Failed(port, n, asked[n])
       && match Heard(port, n, asked[n])
          case Some(Data) => found == Found(asked[n].0, asked[n].1, None)
          case Some(Exception(code)) => found == Found(asked[n].0, asked[n].1, Some(code))
          case _ => false
  }

  /** `asked` ended with the only transaction that failed. */
  ghost predicate FailedLast(port: Port, asked: seq<Ask>) {
    && |asked| > 0 && Asks8(asked)
    && AllSilent(port, asked[..|asked| - 1])
    && Failed(port, |asked| - 1, asked[|asked| - 1])
  }

  lemma SilentStep(port: Port, asked: seq<Ask>, ask: Ask)
    requires Asks8(asked) && AllSilent(port, asked) && ask.1 < 256
    ensures (asked + [ask])[..|asked|] == asked && Asks8(asked + [ask])
    ensures Failed(port, |asked|, ask) ==> FailedLast(port, asked + [ask])
    ensures !Failed(port, |asked|, ask) && !IsAnswer(Heard(port, |asked|, ask)) ==> AllSilent(port, asked + [ask])
    ensures !Failed(port, |asked|, ask) && IsAnswer(Heard(port, |asked|, ask)) ==>
              FoundLast(port, asked + [ask], Found(ask.0, ask.1,
                if Heard(port, |asked|, ask).value.Exception? then Some(Heard(port, |asked|, ask).value.code)
                    else None))
  {
    hide Heard, Failed;
    assert (asked + [ask])[..|asked|] == asked;
  }

  // ----- Where the loops are -----

  /** The report speaks of the settings refused up to some point. */
  ghost predicate ErrorSoFar(port: Port, settings: seq<Settings>, report: Report) {
    exists i: nat :: i <= |settings| && report.error == SettingError(port, settings[..i])
  }

  /** About to try setting `i`. */
  ghost predicate AtSetting(port: Port, settings: seq<Settings>, units: seq<nat>, i: nat, report: Report,
                            asked: seq<Ask>)
  {
    && i <= |settings|
    && Tallied(port, report, asked) && AllSilent(port, asked)
    && report.settingsTried == Taken(port, settings[..i])
    && report.error == SettingError(port, settings[..i])
    && asked == Plan(Taken(port, settings[..i]), units)
  }

  /** At setting `i`, which the port took, about to ask unit `j`. */
  ghost predicate AtUnit(port: Port, settings: seq<Settings>, units: seq<nat>, i: nat, j: nat, report: Report,
                         asked: seq<Ask>)
  {
    && i < |settings| && j <= |units| && port.takes(settings[i])
    && Tallied(port, report, asked) && AllSilent(port, asked)
    && report.settingsTried == Taken(port, settings[..i]) + [settings[i]]
    && report.error == SettingError(port, settings[..i])
    && asked == Plan(Taken(port, settings[..i]), units) + Row(settings[i], units)[..j]
  }

  lemma AtStart(port: Port, settings: seq<Settings>, units: seq<nat>)
    ensures AtSetting(port, settings, units, 0, Report([], 0, 0, [], None), [])
    ensures Faithful(port, settings, units, Report([], 0, 0, [], Some(CouldNotOpen)), [])
  {}

  lemma AtSettingIsFaithful(port: Port, settings: seq<Settings>, units: seq<nat>, i: nat, report: Report,
                            asked: seq<Ask>)
    requires AtSetting(port, settings, units, i, report, asked)
    ensures Faithful(port, settings, units, report, asked) && AllSilent(port, asked)
    ensures ErrorSoFar(port, settings, report)
    ensures i == |settings| ==>
              && report.settingsTried == Taken(port, settings) && asked == Plan(Taken(port, settings), units)
              && report.error == SettingError(port, settings)
  {
    hide Tallied, AllSilent, Plan, Taken, SettingError;
    TakenExtends(port, settings, i);
    PlanPrefix(port, settings, units, Taken(port, settings[..i]));
    if i == |settings| {
      assert settings[..i] == settings;
    }
  }

  lemma NotTaken(port: Port, settings: seq<Settings>, units: seq<nat>, i: nat, report: Report, asked: seq<Ask>)
    requires AtSetting(port, settings, units, i, report, asked) && i < |settings| && !port.takes(settings[i])
    ensures AtSetting(port, settings, units, i + 1, report.(error := Some(CouldNotSet(settings[i]))), asked)
  {
    assert settings[..i + 1][..i] == settings[..i];
  }

  lemma FirstUnit(port: Port, settings: seq<Settings>, units: seq<nat>, i: nat, report: Report, asked: seq<Ask>)
    requires AtSetting(port, settings, units, i, report, asked) && i < |settings| && port.takes(settings[i])
    ensures AtUnit(port, settings, units, i, 0, report.(settingsTried := report.settingsTried + [settings[i]]), asked)
  {}

  lemma TakenNext(port: Port, settings: seq<Settings>, i: nat)
    requires i < |settings| && port.takes(settings[i])
    ensures Taken(port, settings[..i + 1]) == Taken(port, settings[..i]) + [settings[i]]
    ensures SettingError(port, settings[..i + 1]) == SettingError(port, settings[..i])
  {
    assert settings[..i + 1][..i] == settings[..i];
  }

  lemma AtUnitIsFaithful(port: Port, settings: seq<Settings>, units: seq<nat>, i: nat, j: nat, report: Report,
                         asked: seq<Ask>)
    requires AtUnit(port, settings, units, i, j, report, asked)
    ensures Faithful(port, settings, units, report, asked) && AllSilent(port, asked)
    ensures ErrorSoFar(port, settings, report)
  {
    InPlan(port, settings, units, i, j, asked);
  }

  lemma InPlan(port: Port, settings: seq<Settings>, units: seq<nat>, i: nat, j: nat, asked: seq<Ask>)
    requires i < |settings| && port.takes(settings[i]) && j <= |units|
    requires asked == Plan(Taken(port, settings[..i]), units) + Row(settings[i], units)[..j]
    ensures Taken(port, settings[..i]) + [settings[i]] <= Taken(port, settings)
    ensures asked <= Plan(Taken(port, settings[..i]) + [settings[i]], units)
    ensures asked <= Plan(Taken(port, settings), units)
  {
    hide Plan, Taken, Row;
    var tried, s := Taken(port, settings[..i]), settings[i];
    TakenNext(port, settings, i);
    TakenExtends(port, settings, i + 1);
    PlanGrows(tried, s, units);
    PlanPrefix(port, settings, units, tried + [s]);
    PrefixOfSum(Plan(tried, units), Row(s, units), j);
  }

  lemma PrefixOfSum(x: seq<Ask>, y: seq<Ask>, j: nat)
    requires j <= |y|
    ensures x + y[..j] <= x + y
  {}

  /** Asking unit `j`: the scan ends there on a failure or an answer, and otherwise moves on. */
  lemma AskUnit(port: Port, settings: seq<Settings>, units: seq<nat>, i: nat, j: nat, report: Report, asked: seq<Ask>)
    requires AtUnit(port, settings, units, i, j, report, asked) && j < |units| && units[j] < 256
    ensures var ask := (settings[i], units[j]);
            var reply := Heard(port, report.unitsTried, ask);
            var report' := Noted(report.(unitsTried := report.unitsTried + 1), reply);
            && Faithful(port, settings, units, report', asked + [ask])
            && ErrorSoFar(port, settings, report')
            && (if Failed(port, report.unitsTried, ask) then FailedLast(port, asked + [ask])
                else if IsAnswer(reply) then
                  FoundLast(port, asked + [ask],
                    Found(ask.0, ask.1, if reply.value.Exception? then Some(reply.value.code) else None))
                else AtUnit(port, settings, units, i, j + 1, report', asked + [ask]))
  {
    hide Heard, Failed, IsAnswer, Plan, Taken, SettingError, Tallied, AllSilent, FoundLast, FailedLast;
    var ask := (settings[i], units[j]);
    assert Asks8(asked) && report.unitsTried == |asked| by { TalliedLength(port, report, asked); }
    SilentStep(port, asked, ask);
    TallyStep(port, report, asked, ask);
    assert Row(settings[i], units)[..j + 1] == Row(settings[i], units)[..j] + [ask];
    assert asked + [ask] == Plan(Taken(port, settings[..i]), units) + Row(settings[i], units)[..j + 1];
    InPlan(port, settings, units, i, j + 1, asked + [ask]);
  }

  lemma TalliedLength(port: Port, report: Report, asked: seq<Ask>)
    requires Tallied(port, report, asked)
    ensures Asks8(asked) && report.unitsTried == |asked|
  {}

  lemma LastUnit(port: Port, settings: seq<Settings>, units: seq<nat>, i: nat, report: Report, asked: seq<Ask>)
    requires AtUnit(port, settings, units, i, |units|, report, asked)
    ensures AtSetting(port, settings, units, i + 1, report, asked)
  {
    hide AllSilent, Plan, Taken, SettingError, Tallied;
    TakenNext(port, settings, i);
    PlanGrows(Taken(port, settings[..i]), settings[i], units);
    assert Row(settings[i], units)[..|units|] == Row(settings[i], units);
  }

  /** The first `n` reads of the flag found it clear. */
  ghost predicate Unset(stop: nat -> bool, n: nat) {
    forall r: nat :: r < n ==> !stop(r)
  }

  method ScanPort(port: Port, settings: seq<Settings>, units: seq<nat>, stop: nat -> bool)
    returns (report: Report, found: Option<Found>, ghost asked: seq<Ask>, loads: nat)
    requires Units8(units)
    ensures !port.opens ==> asked == [] && found == None && report == Report([], 0, 0, [], Some(CouldNotOpen))
    ensures Faithful(port, settings, units, report, asked)
    // A hit is the last thing asked, and the first to answer.
    ensures found.Some? ==>
              FoundLast(port, asked, found.value) && ErrorSoFar(port, settings, report)
    // Without one, nothing asked answered, and the plan was carried out unless the port did not open,
    // its last transaction failed, or the scan was told to stop.
    ensures found == None && port.opens ==>
              || (FailedLast(port, asked) && report.error == Some(ReadWriteFailed))
              || (AllSilent(port, asked) && loads > 0 && stop(loads - 1)
                  && ErrorSoFar(port, settings, report))
              || (AllSilent(port, asked) && report.settingsTried == Taken(port, settings)
                  && report.error == SettingError(port, settings)
                  && asked == Plan(Taken(port, settings), units))
    // Every request has a read of the flag of its own before it that found it clear, and once the flag
    // has been read as set it is not read again.
    ensures |asked| <= loads && (loads > 0 && stop(loads - 1) ==> |asked| < loads)
    ensures Unset(stop, loads) || (loads > 0 && Unset(stop, loads - 1) && stop(loads - 1))
  {
    hide Classify, Plan, Taken, Row, Tallied,
         CountNoise, OthersHeard, Asks8, FoundLast, FailedLast, AllSilent, Faithful,
         AtSetting, AtUnit, ErrorSoFar, SettingError, Failed, Heard, Noted, Unset;
    report := Report([], 0, 0, [], None);
    asked := [];
    found := None;
    loads := 0;
    NothingRead(stop);
    AtStart(port, settings, units);
    if !port.opens {
      report := report.(error := Some(CouldNotOpen));
      return;
    }
    for i := 0 to |settings|
      invariant Unset(stop, loads) && |asked| <= loads
      invariant loads > 0 ==> !stop(loads - 1)
      invariant AtSetting(port, settings, units, i, report, asked)
    {
      var s := settings[i];
      AtSettingIsFaithful(port, settings, units, i, report, asked);
      ReadOnce(stop, loads);
      loads := loads + 1;
      if stop(loads - 1) {
        return;
      }
      if !port.takes(s) {
        NotTaken(port, settings, units, i, report, asked);
        report := report.(error := Some(CouldNotSet(s)));
        continue;
      }
      FirstUnit(port, settings, units, i, report, asked);
      report := report.(settingsTried := report.settingsTried + [s]);
      for j := 0 to |units|
        invariant Unset(stop, loads) && |asked| <= loads
        invariant loads > 0 ==> !stop(loads - 1)
        invariant AtUnit(port, settings, units, i, j, report, asked)
      {
        var unit := units[j];
        AtUnitIsFaithful(port, settings, units, i, j, report, asked);
        ReadOnce(stop, loads);
        loads := loads + 1;
        if stop(loads - 1) {
          return;
        }
        AskUnit(port, settings, units, i, j, report, asked);
        var result := port.transact(report.unitsTried, s, unit);
        HeardIs(port, report.unitsTried, (s, unit));
        report := report.(unitsTried := report.unitsTried + 1);
        asked := asked + [(s, unit)];
        if result.Err? {
          NotedUnlessNoise(report, None);
          FaithfulWithError(port, settings, units, report, asked, ReadWriteFailed);
          report := report.(error := Some(ReadWriteFailed));
          return;
        }
        var reply := Classify(unit as bv8, result.value);
        if IsAnswer(reply) {
          NotedUnlessNoise(report, reply);
          found := Some(Found(s, unit, if reply.value.Exception? then Some(reply.value.code) else None));
          return;
        }
        report := Noted(report, reply);
      }
      LastUnit(port, settings, units, i, report, asked);
    }
    AtSettingIsFaithful(port, settings, units, |settings|, report, asked);
  }

  lemma HeardIs(port: Port, n: nat, ask: Ask)
    requires ask.1 < 256
    ensures Failed(port, n, ask) <==> port.transact(n, ask.0, ask.1).Err?
    ensures Heard(port, n, ask)
         == if Failed(port, n, ask) then None else Classify(ask.1 as bv8, port.transact(n, ask.0, ask.1).value)
  {}

  lemma NotedUnlessNoise(report: Report, reply: Option<Reply>)
    requires !IsNoise(reply)
    ensures Noted(report, reply) == report
  {}

  lemma NothingRead(stop: nat -> bool)
    ensures Unset(stop, 0)
  {}

  lemma ReadOnce(stop: nat -> bool, n: nat)
    requires Unset(stop, n)
    ensures !stop(n) ==> Unset(stop, n + 1)
  {}

  lemma FaithfulWithError(port: Port, settings: seq<Settings>, units: seq<nat>, report: Report, asked: seq<Ask>,
                          error: ScanError)
    requires Faithful(port, settings, units, report, asked)
    ensures Faithful(port, settings, units, report.(error := Some(error)), asked)
  {}

  lemma PlanPrefix(port: Port, settings: seq<Settings>, units: seq<nat>, tried: seq<Settings>)
    requires tried <= Taken(port, settings)
    ensures Plan(tried, units) <= Plan(Taken(port, settings), units)
  {
    var all := Taken(port, settings);
    assert all[..|tried|] == tried;
    PlanExtends(all, |tried|, units);
  }

  // ----- What the report says, in numbers -----

  /** The requests that noise came back to: a frame of another unit, or what is no frame. */
  ghost function NoisyOnes(port: Port, asked: seq<Ask>): set<nat>
    requires Asks8(asked)
  {
    set n: nat | n < |asked| && (Heard(port, n, asked[n]) == Some(Garbage) || HeardOther(port, asked, n))
  }

  predicate HeardOther(port: Port, asked: seq<Ask>, n: nat)
    requires Asks8(asked) && n < |asked|
  {
    var reply := Heard(port, n, asked[n]);
    reply.Some? && reply.value.OtherUnit?
  }

  lemma NoisyStep(port: Port, asked: seq<Ask>)
    requires Asks8(asked) && asked != []
    ensures var n := |asked| - 1;
            && NoisyOnes(port, asked)
               == NoisyOnes(port, asked[..n]) + (if IsNoise(Heard(port, n, asked[n])) then {n} else {})
            && n !in NoisyOnes(port, asked[..n])
  {
    hide Heard;
    var n := |asked| - 1;
    forall m: nat | m < n
      ensures HeardOther(port, asked[..n], m) == HeardOther(port, asked, m) && asked[..n][m] == asked[m]
    {}
  }

  lemma {:induction false} NoiseIs(port: Port, asked: seq<Ask>)
    requires Asks8(asked)
    ensures CountNoise(port, asked) == |NoisyOnes(port, asked)|
    decreases |asked|
  {
    if asked == [] {
      assert NoisyOnes(port, asked) == {};
    } else {
      NoisyStep(port, asked);
      hide NoisyOnes, Heard, IsNoise;
      NoiseIs(port, asked[..|asked| - 1]);
    }
  }

  lemma {:induction false} OthersAre(port: Port, asked: seq<Ask>)
    requires Asks8(asked)
    ensures NoRepeats(OthersHeard(port, asked))
    ensures forall u :: u in OthersHeard(port, asked) <==>
              exists n: nat :: n < |asked| && HeardOther(port, asked, n) && Heard(port, n, asked[n]).value.unit == u
    decreases |asked|
  {
    hide Heard;
    if asked != [] {
      var n := |asked| - 1;
      var before := asked[..n];
      OthersAre(port, before);
      forall m: nat | m < n
        ensures HeardOther(port, before, m) == HeardOther(port, asked, m) && before[m] == asked[m]
      {}
      forall u
        ensures u in OthersHeard(port, asked) <==>
                  exists m: nat :: m < |asked| && HeardOther(port, asked, m) && Heard(port, m, asked[m]).value.unit == u
      {
        if m: nat :| m < n && HeardOther(port, asked, m) && Heard(port, m, asked[m]).value.unit == u {
          assert HeardOther(port, before, m);
        }
      }
    }
  }

  lemma {:induction false} SettingErrorIs(port: Port, settings: seq<Settings>)
    ensures SettingError(port, settings) == None <==> forall k :: 0 <= k < |settings| ==> port.takes(settings[k])
    ensures SettingError(port, settings) != None ==>
              exists k :: 0 <= k < |settings| && !port.takes(settings[k])
                          && SettingError(port, settings) == Some(CouldNotSet(settings[k]))
                          && forall l :: k < l < |settings| ==> port.takes(settings[l])
    decreases |settings|
  {
    if settings != [] {
      var n := |settings| - 1;
      SettingErrorIs(port, settings[..n]);
      assert settings == settings[..n] + [settings[n]];
      if port.takes(settings[n]) && SettingError(port, settings) != None {
        var k :| 0 <= k < n && !port.takes(settings[..n][k])
                 && SettingError(port, settings[..n]) == Some(CouldNotSet(settings[..n][k]))
                 && forall l :: k < l < n ==> port.takes(settings[..n][l]);
        assert forall l :: k < l < n ==> settings[..n][l] == settings[l];
        assert settings[..n][k] == settings[k];
      }
    }
  }

  /** The report of every scan: how many units were asked; how many answers were noise, of another unit or
      of none; and which other units were heard, each once. A scan that went through all the settings
      speaks of the last one the port refused, if it refused any. */
  lemma ReportInNumbers(port: Port, settings: seq<Settings>, report: Report, asked: seq<Ask>)
    requires Tallied(port, report, asked)
    ensures report.unitsTried == |asked| && report.noise == |NoisyOnes(port, asked)|
    ensures NoRepeats(report.otherUnitsSeen)
    ensures forall u :: u in report.otherUnitsSeen <==>
              exists n: nat :: n < |asked| && HeardOther(port, asked, n) && Heard(port, n, asked[n]).value.unit == u
    ensures report.error == SettingError(port, settings) && report.error.Some? ==>
              exists k :: 0 <= k < |settings| && !port.takes(settings[k])
                          && report.error == Some(CouldNotSet(settings[k]))
                          && forall l :: k < l < |settings| ==> port.takes(settings[l])
    ensures report.error == SettingError(port, settings) && report.error.None? ==>
              forall k :: 0 <= k < |settings| ==> port.takes(settings[k])
  {
    hide Heard, NoisyOnes, CountNoise, OthersHeard, SettingError;
    NoiseIs(port, asked);
    OthersAre(port, asked);
    SettingErrorIs(port, settings);
  }

  // ----- Nothing is missed -----

  /** The plan asks each unit at each setting, and each pair only once. */
  lemma {:induction false} PlanExactlyOnce(settings: seq<Settings>, units: seq<nat>)
    requires NoRepeats(settings) && NoRepeats(units)
    ensures NoRepeats(Plan(settings, units))
    ensures forall s: Settings, u: nat :: (s, u) in Plan(settings, units) <==> s in settings && u in units
    decreases |settings|
  {
    if settings != [] {
      var shorter, s := settings[..|settings| - 1], settings[|settings| - 1];
      PlanExactlyOnce(shorter, units);
      var head, row := Plan(shorter, units), Row(s, units);
      assert settings == shorter + [s];
      forall t: Settings, u: nat
        ensures (t, u) in row <==> t == s && u in units
      {
        if t == s && u in units {
          var j :| 0 <= j < |units| && units[j] == u;
          assert row[j] == (t, u);
        }
      }
      var both: seq<Ask> := head + row;
      forall i, j | 0 <= i < j < |both|
        ensures both[i] != both[j]
      {
        if i < |head| <= j {
          assert head[i] in head && both[j] == row[j - |head|];
          assert (head[i].0, head[i].1) == head[i];
        }
      }
    }
  }

  /** A bus that answers the same whenever it is asked the same, and never fails. */
  ghost predicate Steady(port: Port) {
    forall n: nat, m: nat, s: Settings, u: nat :: port.transact(n, s, u).Ok?
        && port.transact(n, s, u) == port.transact(m, s, u)
  }

  predicate Answers(port: Port, s: Settings, u: nat)
    requires u < 256
  {
    IsAnswer(Heard(port, 0, (s, u)))
  }

  /** Place `k` of the plan is the first whose unit answers. */
  ghost predicate FirstAnswer(port: Port, plan: seq<Ask>, k: nat)
    requires Asks8(plan)
  {
    && k < |plan|
    && Answers(port, plan[k].0, plan[k].1)
    && forall i :: 0 <= i < k ==> !Answers(port, plan[i].0, plan[i].1)
  }

  lemma SteadyHears(port: Port, n: nat, ask: Ask)
    requires Steady(port) && ask.1 < 256
    ensures !Failed(port, n, ask)
    ensures Heard(port, n, ask) == Heard(port, 0, ask)
  {}

  lemma SilentMeans(port: Port, asked: seq<Ask>)
    requires Steady(port) && Asks8(asked) && AllSilent(port, asked)
    ensures forall n :: 0 <= n < |asked| ==> !Answers(port, asked[n].0, asked[n].1)
  {}

  lemma FoundIsFirst(port: Port, plan: seq<Ask>, asked: seq<Ask>, found: Found)
    requires Steady(port) && Asks8(plan) && asked <= plan && FoundLast(port, asked, found)
    ensures |asked| > 0 && FirstAnswer(port, plan, |asked| - 1) && plan[|asked| - 1] == (found.settings, found.unit)
  {
    hide Heard, Failed, Steady;
    var n := |asked| - 1;
    SilentMeans(port, asked[..n]);
    SteadyHears(port, n, asked[n]);
    forall i | 0 <= i < n
      ensures !Answers(port, plan[i].0, plan[i].1)
    {
      assert asked[..n][i] == plan[i];
    }
  }

  /** The scan of one port as `scan_modbus` sets it up, over a steady bus and never told to stop: it
      finds the first answering unit in the plan and asks nothing after it, or, when it finds none,
      has asked each of the 247 units exactly once at each hinted or default setting the port takes,
      and none of them answers. */
  method ScanWhole(port: Port, hintUnits: seq<nat>, hintSettings: seq<Settings>)
    returns (report: Report, found: Option<Found>, ghost asked: seq<Ask>)
    requires port.opens && Steady(port)
    ensures Asks8(Plan(Taken(port, SettingsToTry(hintSettings)), Units(hintUnits)))
    ensures var plan := Plan(Taken(port, SettingsToTry(hintSettings)), Units(hintUnits));
            if found.Some? then
              && |asked| > 0 && asked <= plan
              && FirstAnswer(port, plan, |asked| - 1)
              && plan[|asked| - 1] == (found.value.settings, found.value.unit)
            else asked == plan
    ensures found == None ==> report.unitsTried == MAX_UNIT * |report.settingsTried|
    ensures found == None <==>
              forall s: Settings, u: nat :: (s in hintSettings || s in SETTINGS) && port.takes(s) && IsUnit(u) ==>
                  !Answers(port, s, u)
    ensures NoRepeats(asked)
  {
    hide Plan, Taken, FoundLast, FailedLast, AllSilent, Steady, Answers, FirstAnswer, Heard, Tallied, NoRepeats;
    var units := UnitOrder(hintUnits);
    var settings := SettingsOrder(hintSettings);
    WholePlan(port, hintUnits, hintSettings);
    var loads;
    report, found, asked, loads := ScanPort(port, settings, units, n => false);
    TalliedLength(port, report, asked);
    ghost var plan := Plan(Taken(port, settings), units);
    NoRepeatsInPart(plan, asked);
    if found.Some? {
      FoundIsFirst(port, plan, asked, found.value);
      HitIsReal(port, hintUnits, hintSettings, |asked| - 1);
    } else {
      NotFailedLast(port, asked);
      NothingMissed(port, hintUnits, hintSettings);
    }
  }

  lemma NoRepeatsInPart(whole: seq<Ask>, part: seq<Ask>)
    requires NoRepeats(whole) && part <= whole
    ensures NoRepeats(part)
  {}

  lemma WholePlan(port: Port, hintUnits: seq<nat>, hintSettings: seq<Settings>)
    ensures var plan := Plan(Taken(port, SettingsToTry(hintSettings)), Units(hintUnits));
            && NoRepeats(plan) && Asks8(plan)
            && forall s: Settings, u: nat ::
                 (s, u) in plan <==> (s in hintSettings || s in SETTINGS) && port.takes(s) && IsUnit(u)
    ensures |Units(hintUnits)| == MAX_UNIT && Units8(Units(hintUnits))
  {
    hide Plan, Taken, Units, SettingsToTry;
    var units, settings := Units(hintUnits), SettingsToTry(hintSettings);
    UnitsExactlyOnce(hintUnits);
    SettingsExactlyOnce(hintSettings);
    TakenMembers(port, settings);
    PlanExactlyOnce(Taken(port, settings), units);
    forall k | 0 <= k < |units|
      ensures units[k] < 256
    {
      assert units[k] in units;
    }
    PlanUnits(Taken(port, settings), units);
  }

  lemma HitIsReal(port: Port, hintUnits: seq<nat>, hintSettings: seq<Settings>, k: nat)
    requires Asks8(Plan(Taken(port, SettingsToTry(hintSettings)), Units(hintUnits)))
    requires FirstAnswer(port, Plan(Taken(port, SettingsToTry(hintSettings)), Units(hintUnits)), k)
    ensures exists s: Settings, u: nat ::
              (s in hintSettings || s in SETTINGS) && port.takes(s) && IsUnit(u) && Answers(port, s, u)
  {
    hide Plan, Taken, Units, SettingsToTry, Answers;
    WholePlan(port, hintUnits, hintSettings);
    var hit := Plan(Taken(port, SettingsToTry(hintSettings)), Units(hintUnits))[k];
    assert (hit.0, hit.1) == hit;
    assert Answers(port, hit.0, hit.1);
  }

  lemma NothingMissed(port: Port, hintUnits: seq<nat>, hintSettings: seq<Settings>)
    requires Steady(port)
    requires var plan := Plan(Taken(port, SettingsToTry(hintSettings)), Units(hintUnits));
             Asks8(plan) && AllSilent(port, plan)
    ensures forall s: Settings, u: nat ::
              (s in hintSettings || s in SETTINGS) && port.takes(s) && IsUnit(u) ==> !Answers(port, s, u)
  {
    hide Plan, Taken, Units, SettingsToTry, AllSilent, Steady, Answers;
    var plan := Plan(Taken(port, SettingsToTry(hintSettings)), Units(hintUnits));
    WholePlan(port, hintUnits, hintSettings);
    SilentMeans(port, plan);
    forall s: Settings, u: nat | (s in hintSettings || s in SETTINGS) && port.takes(s) && IsUnit(u)
      ensures !Answers(port, s, u)
    {
      assert (s, u) in plan;
      var k :| 0 <= k < |plan| && plan[k] == (s, u);
    }
  }

  lemma NotFailedLast(port: Port, asked: seq<Ask>)
    requires Steady(port)
    ensures !FailedLast(port, asked)
  {}

  lemma PlanUnits(settings: seq<Settings>, units: seq<nat>)
    requires Units8(units)
    ensures Asks8(Plan(settings, units))
  {}

  lemma {:induction false} TakenMembers(port: Port, settings: seq<Settings>)
    ensures forall s :: s in Taken(port, settings) <==> s in settings && port.takes(s)
    ensures NoRepeats(settings) ==> NoRepeats(Taken(port, settings))
    decreases |settings|
  {
    if settings != [] {
      var shorter, s := settings[..|settings| - 1], settings[|settings| - 1];
      TakenMembers(port, shorter);
      assert settings == shorter + [s];
      if NoRepeats(settings) {
        forall k | 0 <= k < |shorter|
          ensures shorter[k] != s
        {
          assert settings[k] != settings[|settings| - 1];
        }
      }
    }
  }
}
