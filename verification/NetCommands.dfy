/** The nmcli command lines `net_apply` runs for each operation (src/netapply.rs), and what nmcli takes
    them to mean: why `NetApply.Commands` may speak of an edited profile and its activation. */
module NetCommands {
  import opened Wrappers
  import Shell
  import NetApply
  import NetworkManager

  datatype Target = Named(name: string) | OnInterface(name: string)

  /** A validated operation, addresses already written out. */
  datatype NetOp =
    | WifiConnect(ssid: string, password: Option<string>, interface: Option<string>)
    | Ipv4(target: Target, manual: Option<string>, gateway: Option<string>, dns: Option<string>)
    | Dns(target: Target, servers: string)
    | Interface(name: string, up: bool)
    | Lte(apn: string, user: Option<string>, pass: Option<string>, connection: Option<string>)
    | Connection(name: string, up: bool)

  /** The connection an operation needs looked up is there. */
  predicate Resolved(op: NetOp, connection: Option<string>) {
    op.Ipv4? || op.Dns? ==> connection.Some?
  }

  function OptionWords(key: string, value: Option<string>): seq<string> {
    if value.Some? then [key, value.value] else []
  }

  function Waiting(wait: string, rest: seq<string>): seq<string> {
    ["nmcli", "-w", wait] + rest
  }

  /** The profile `lte` works on when there is none yet. */
  function LteName(connection: Option<string>): string {
    if connection.Some? then connection.value else "lte"
  }

  function Commands(op: NetOp, connection: Option<string>, wait: string): (r: seq<seq<string>>)
    requires Resolved(op, connection)
  {
    match op
    case WifiConnect(ssid, password, interface) =>
      [Waiting(wait, ["dev", "wifi", "connect", ssid]) + OptionWords("password", password)
          + OptionWords("ifname", interface)]
    case Ipv4(_, manual, gateway, dns) =>
      [["nmcli", "con", "mod", connection.value]
       + (if manual.Some? then
            ["ipv4.method", "manual", "ipv4.addresses", manual.value,
             "ipv4.gateway", if gateway.Some? then gateway.value else ""]
          else ["ipv4.method", "auto", "ipv4.addresses", "", "ipv4.gateway", ""])
       + OptionWords("ipv4.dns", dns),
       Waiting(wait, ["con", "up", connection.value])]
    case Dns(_, servers) =>
      [["nmcli", "con", "mod", connection.value, "ipv4.dns", servers, "ipv4.ignore-auto-dns", "yes"],
       Waiting(wait, ["con", "up", connection.value])]
    case Interface(name, up) =>
      [Waiting(wait, ["dev", if up then "connect" else "disconnect", name])]
    case Lte(apn, user, pass, wanted) =>
      var creds := OptionWords("gsm.username", user) + OptionWords("gsm.password", pass);
      if connection.Some? then
        [["nmcli", "con", "mod", connection.value, "gsm.apn", apn] + creds,
         Waiting(wait, ["con", "up", connection.value])]
      else
        [["nmcli", "con", "add", "type", "gsm", "ifname", "*", "con-name", LteName(wanted), "gsm.apn", apn] + creds,
         Waiting(wait, ["con", "up", LteName(wanted)])]
    case Connection(name, up) =>
      [Waiting(wait, ["con", if up then "up" else "down", name])]
  }

  // ----- What nmcli takes a command line to mean -----

  datatype Meaning =
    | Edits(profile: string)
    | Activates(profile: string)
    | Deactivates(profile: string)
    | Device(verb: string)
    | Nothing

  /** The words after nmcli's own `-w` option. */
  function AfterWait(argv: seq<string>): seq<string> {
    if |argv| >= 3 && argv[0] == "nmcli" && argv[1] == "-w" then argv[3..]
    else if |argv| >= 1 && argv[0] == "nmcli" then argv[1..]
    else []
  }

  function MeaningOf(argv: seq<string>): Meaning {
    var words := AfterWait(argv);
    if |words| >= 3 && words[0] == "con" && words[1] == "mod" then Edits(words[2])
    else if |words| >= 8 && words[0] == "con" && words[1] == "add" && words[6] == "con-name" then Edits(words[7])
    else if |words| == 3 && words[0] == "con" && words[1] == "up" then Activates(words[2])
    else if |words| == 3 && words[0] == "con" && words[1] == "down" then Deactivates(words[2])
    else if |words| >= 3 && words[0] == "dev" then Device(words[1])
    else Nothing
  }

  /** The operation as the protocol sees it. */
  function Abstract(op: NetOp): NetApply.NetOp {
    match op
    case WifiConnect(_, _, _) => NetApply.WifiConnect
    case Ipv4(target, _, _, _) => NetApply.Ipv4(target.OnInterface?)
    case Dns(target, _) => NetApply.Dns(target.OnInterface?)
    case Interface(_, up) => NetApply.Interface(up)
    case Lte(_, _, _, _) => NetApply.Lte
    case Connection(_, up) => NetApply.Connection(up)
  }

  /** The last command waits for its outcome for `wait` seconds, and is the only one that does. */
  predicate WaitsLast(commands: seq<seq<string>>, wait: string) {
    && commands != []
    && (forall k :: 0 <= k < |commands| ==> |commands[k]| >= 3)
    && (forall k :: 0 <= k < |commands| - 1 ==> commands[k][1] != "-w")
    && commands[|commands| - 1][1] == "-w" && commands[|commands| - 1][2] == wait
  }

  lemma LastWaits(op: NetOp, connection: Option<string>, wait: string)
    requires Resolved(op, connection)
    ensures WaitsLast(Commands(op, connection, wait), wait)
  {
    hide MeaningOf, OptionWords;
  }

  /** One command that is not an edit. */
  predicate IsDirect(commands: seq<seq<string>>) {
    |commands| == 1 && !MeaningOf(commands[0]).Edits? && MeaningOf(commands[0]) != Nothing
  }

  /** An edit of a profile, and the activation of that same profile. */
  predicate EditsThenActivates(commands: seq<seq<string>>) {
    && |commands| == 2 && MeaningOf(commands[0]).Edits?
    && MeaningOf(commands[1]) == Activates(MeaningOf(commands[0]).profile)
  }

  predicate BringsUp(commands: seq<seq<string>>) {
    |commands| == 1 && (MeaningOf(commands[0]).Activates? || MeaningOf(commands[0]) == Device("connect"))
  }

  predicate TakesDown(commands: seq<seq<string>>) {
    |commands| == 1 && (MeaningOf(commands[0]).Deactivates? || MeaningOf(commands[0]) == Device("disconnect"))
  }

  lemma TwoAreNeither(commands: seq<seq<string>>)
    ensures |commands| == 2 ==> !BringsUp(commands) && !TakesDown(commands)
  {}

  lemma ProfileUp(wait: string, edit: seq<string>, profile: string)
    requires MeaningOf(edit) == Edits(profile)
    ensures EditsThenActivates([edit, Waiting(wait, ["con", "up", profile])])
  {}

  lemma ModEdits(profile: string, rest: seq<string>)
    ensures MeaningOf(["nmcli", "con", "mod", profile] + rest) == Edits(profile)
  {}

  lemma AddEdits(profile: string, apn: string, rest: seq<string>)
    ensures MeaningOf(["nmcli", "con", "add", "type", "gsm", "ifname", "*", "con-name", profile, "gsm.apn", apn] + rest)
         == Edits(profile)
  {}

  /** What `CommandsMean` says of an operation's command lines. */
  predicate MeantFor(op: NetOp, commands: seq<seq<string>>) {
    && (if op.Ipv4? || op.Dns? || op.Lte? then EditsThenActivates(commands) else IsDirect(commands))
    && (NetApply.Harmless(Abstract(op)) <==> BringsUp(commands))
    && (TakesDown(commands) <==> (op.Interface? || op.Connection?) && !op.up)
  }

  lemma Ipv4Means(op: NetOp, connection: Option<string>, wait: string)
    requires op.Ipv4? && connection.Some?
    ensures MeantFor(op, Commands(op, connection, wait))
  {
    hide MeaningOf, EditsThenActivates, IsDirect, BringsUp, TakesDown;
    var settings := (if op.manual.Some? then
                       ["ipv4.method", "manual", "ipv4.addresses", op.manual.value,
                        "ipv4.gateway", if op.gateway.Some? then op.gateway.value else ""]
                     else ["ipv4.method", "auto", "ipv4.addresses", "", "ipv4.gateway", ""]);
    var dns := OptionWords("ipv4.dns", op.dns);
    var edit := ["nmcli", "con", "mod", connection.value] + (settings + dns);
    assert edit == ["nmcli", "con", "mod", connection.value] + settings + dns;
    ModEdits(connection.value, settings + dns);
    ProfileUp(wait, edit, connection.value);
    TwoAreNeither(Commands(op, connection, wait));
  }

  lemma DnsMeans(op: NetOp, connection: Option<string>, wait: string)
    requires op.Dns? && connection.Some?
    ensures MeantFor(op, Commands(op, connection, wait))
  {
    hide MeaningOf, EditsThenActivates, IsDirect, BringsUp, TakesDown;
    var rest := ["ipv4.dns", op.servers, "ipv4.ignore-auto-dns", "yes"];
    var edit := ["nmcli", "con", "mod", connection.value] + rest;
    assert edit == ["nmcli", "con", "mod", connection.value, "ipv4.dns", op.servers, "ipv4.ignore-auto-dns", "yes"];
    ModEdits(connection.value, rest);
    ProfileUp(wait, edit, connection.value);
    TwoAreNeither(Commands(op, connection, wait));
  }

  lemma LteMeans(op: NetOp, connection: Option<string>, wait: string)
    requires op.Lte?
    ensures MeantFor(op, Commands(op, connection, wait))
  {
    hide MeaningOf, EditsThenActivates, IsDirect, BringsUp, TakesDown;
    var creds := OptionWords("gsm.username", op.user) + OptionWords("gsm.password", op.pass);
    if connection.Some? {
      var edit := ["nmcli", "con", "mod", connection.value] + (["gsm.apn", op.apn] + creds);
      assert edit == ["nmcli", "con", "mod", connection.value, "gsm.apn", op.apn] + creds;
      ModEdits(connection.value, ["gsm.apn", op.apn] + creds);
      ProfileUp(wait, edit, connection.value);
    } else {
      var name := LteName(op.connection);
      AddEdits(name, op.apn, creds);
      ProfileUp(wait, Commands(op, connection, wait)[0], name);
    }
    TwoAreNeither(Commands(op, connection, wait));
  }

  lemma WifiMeans(op: NetOp, connection: Option<string>, wait: string)
    requires op.WifiConnect?
    ensures MeantFor(op, Commands(op, connection, wait))
  {}

  /** Whatever the names and values in it, an operation is one direct command, or edits one profile and
      then activates that same profile, nothing else; a harmless one only brings something up. */
  lemma CommandsMean(op: NetOp, connection: Option<string>, wait: string)
    requires Resolved(op, connection)
    ensures MeantFor(op, Commands(op, connection, wait))
  {
    match op {
      case WifiConnect(_, _, _) => WifiMeans(op, connection, wait);
      case Ipv4(_, _, _, _) => Ipv4Means(op, connection, wait);
      case Dns(_, _) => DnsMeans(op, connection, wait);
      case Lte(_, _, _, _) => LteMeans(op, connection, wait);
      case Interface(name, up) => AfterWaitIs(wait, ["dev", if up then "connect" else "disconnect", name]);
      case Connection(name, up) => AfterWaitIs(wait, ["con", if up then "up" else "down", name]);
    }
  }

  /** What a command line means is what the protocol's step does. */
  predicate Carries(meaning: Meaning, change: NetworkManager.Change) {
    match change
    case Modify(_) => meaning.Edits?
    case Activate => meaning.Activates?
    case Direct(_) => meaning.Activates? || meaning.Deactivates? || meaning.Device?
  }

  /** So the protocol's steps are the commands that are run, one for one, whatever the names and values
      in them; where there are two, the second activates the profile the first edits, and only the last
      one waits, for the time given. */
  lemma CommandsCarry(op: NetOp, connection: Option<string>, wait: string, effect: NetApply.Effect)
    requires Resolved(op, connection)
    ensures var commands, changes := Commands(op, connection, wait), NetApply.Commands(Abstract(op), effect);
            && |commands| == |changes|
            && (forall k :: 0 <= k < |changes| ==> Carries(MeaningOf(commands[k]), changes[k]))
            && (|commands| == 2 ==> EditsThenActivates(commands))
            && (NetApply.Harmless(Abstract(op)) <==> BringsUp(commands))
            && ((op.Interface? || op.Connection?) && !op.up <==> TakesDown(commands))
            && (NetApply.NeedsLookup(Abstract(op)) <==>
                  op.Lte? || (op.Ipv4? && op.target.OnInterface?) || (op.Dns? && op.target.OnInterface?))
            && WaitsLast(commands, wait)
  {
    hide Commands, MeaningOf, WaitsLast, BringsUp, TakesDown;
    CommandsMean(op, connection, wait);
    LastWaits(op, connection, wait);
  }

  lemma AfterWaitIs(wait: string, rest: seq<string>)
    ensures AfterWait(Waiting(wait, rest)) == rest
  {}

  /** And each command line reaches nmcli word for word, whatever quotes, blanks or shell syntax the
      names and passwords in it hold. */
  lemma CommandsReachNmcli(op: NetOp, connection: Option<string>, wait: string, k: nat)
    requires Resolved(op, connection) && k < |Commands(op, connection, wait)|
    ensures var argv := Commands(op, connection, wait)[k];
            Shell.Words(Shell.ShellJoin(argv)) == Some(argv)
  {
    Shell.ShellRoundTrip(Commands(op, connection, wait)[k]);
  }

  // ----- What is written in them -----

  /** The word after `key`, reading keys and values in turn. */
  function ValueOf(words: seq<string>, key: string): Option<string> {
    if |words| < 2 then None
    else if words[0] == key then Some(words[1])
    else ValueOf(words[2..], key)
  }

  lemma ValueNext(key: string, value: string, more: seq<string>, wanted: string)
    ensures ValueOf([key, value] + more, wanted) == if key == wanted then Some(value) else ValueOf(more, wanted)
  {
    assert ([key, value] + more)[2..] == more;
  }

  lemma ValueOptional(key: string, value: Option<string>, more: seq<string>, wanted: string)
    ensures ValueOf(OptionWords(key, value) + more, wanted)
         == if key == wanted && value.Some? then value else ValueOf(more, wanted)
  {
    if value.Some? {
      ValueNext(key, value.value, more, wanted);
    } else {
      assert OptionWords(key, value) + more == more;
    }
  }

  lemma ValueLast(key: string, value: Option<string>, wanted: string)
    ensures ValueOf(OptionWords(key, value), wanted) == if key == wanted then value else None
  {
    assert OptionWords(key, value) + [] == OptionWords(key, value);
    ValueOptional(key, value, [], wanted);
  }

  /** `dev wifi connect`: the network, and its password and the interface exactly if they are given. */
  lemma WifiSettings(op: NetOp, connection: Option<string>, wait: string)
    requires op.WifiConnect?
    ensures var commands := Commands(op, connection, wait);
            && |commands| == 1 && |commands[0]| >= 7
            && commands[0][..7] == ["nmcli", "-w", wait, "dev", "wifi", "connect", op.ssid]
            && ValueOf(commands[0][7..], "password") == op.password
            && ValueOf(commands[0][7..], "ifname") == op.interface
  {
    var rest := OptionWords("password", op.password) + OptionWords("ifname", op.interface);
    ValueOptional("password", op.password, OptionWords("ifname", op.interface), "password");
    ValueOptional("password", op.password, OptionWords("ifname", op.interface), "ifname");
    ValueLast("ifname", op.interface, "password");
    ValueLast("ifname", op.interface, "ifname");
    hide ValueOf, OptionWords;
    var argv := Commands(op, connection, wait)[0];
    assert argv == Waiting(wait, ["dev", "wifi", "connect", op.ssid]) + OptionWords("password", op.password)
                   + OptionWords("ifname", op.interface);
    assert argv[7..] == rest;
  }

  /** Static or automatic addresses: method, address and gateway are always written, those not in use as
      nothing, and the servers exactly if they are given; to the connection that was found. */
  lemma Ipv4Settings(op: NetOp, connection: Option<string>, wait: string)
    requires op.Ipv4? && connection.Some?
    ensures var commands := Commands(op, connection, wait);
            && |commands| == 2 && |commands[0]| >= 4
            && commands[0][..4] == ["nmcli", "con", "mod", connection.value]
            && var words := commands[0][4..];
               && ValueOf(words, "ipv4.method") == Some(if op.manual.Some? then "manual" else "auto")
               && ValueOf(words, "ipv4.addresses") == Some(if op.manual.Some? then op.manual.value else "")
               && ValueOf(words, "ipv4.gateway")
                  == Some(if op.manual.Some? && op.gateway.Some? then op.gateway.value else "")
               && ValueOf(words, "ipv4.dns") == op.dns
  {
    var how := if op.manual.Some? then "manual" else "auto";
    var address := if op.manual.Some? then op.manual.value else "";
    var gateway := if op.manual.Some? && op.gateway.Some? then op.gateway.value else "";
    var dns := OptionWords("ipv4.dns", op.dns);
    var head := ["nmcli", "con", "mod", connection.value];
    var six := ["ipv4.method", how, "ipv4.addresses", address, "ipv4.gateway", gateway];
    assert |Commands(op, connection, wait)| == 2 && Commands(op, connection, wait)[0] == head + six + dns;
    hide Commands, ValueOf, OptionWords;
    Ipv4Values(how, address, gateway, op.dns);
    AfterFour(head, six, dns);
    ThreePairs("ipv4.method", how, "ipv4.addresses", address, "ipv4.gateway", gateway, dns);
  }

  lemma AfterFour(head: seq<string>, a: seq<string>, b: seq<string>)
    requires |head| == 4
    ensures |head + a + b| >= 4 && (head + a + b)[..4] == head && (head + a + b)[4..] == a + b
  {}

  lemma ThreePairs(k: string, v: string, l: string, w: string, m: string, x: string, rest: seq<string>)
    ensures [k, v, l, w, m, x] + rest == [k, v] + ([l, w] + ([m, x] + rest))
  {}

  lemma Ipv4Values(how: string, address: string, gateway: string, dns: Option<string>)
    ensures var words := ["ipv4.method", how]
                         + (["ipv4.addresses", address] + (["ipv4.gateway", gateway] + OptionWords("ipv4.dns", dns)));
            && ValueOf(words, "ipv4.method") == Some(how)
            && ValueOf(words, "ipv4.addresses") == Some(address)
            && ValueOf(words, "ipv4.gateway") == Some(gateway)
            && ValueOf(words, "ipv4.dns") == dns
  {
    hide ValueOf, OptionWords;
    var d := OptionWords("ipv4.dns", dns);
    var g := ["ipv4.gateway", gateway] + d;
    var a := ["ipv4.addresses", address] + g;
    ValueNext("ipv4.method", how, a, "ipv4.method");
    ValueNext("ipv4.method", how, a, "ipv4.addresses");
    ValueNext("ipv4.method", how, a, "ipv4.gateway");
    ValueNext("ipv4.method", how, a, "ipv4.dns");
    ValueNext("ipv4.addresses", address, g, "ipv4.addresses");
    ValueNext("ipv4.addresses", address, g, "ipv4.gateway");
    ValueNext("ipv4.addresses", address, g, "ipv4.dns");
    ValueNext("ipv4.gateway", gateway, d, "ipv4.gateway");
    ValueNext("ipv4.gateway", gateway, d, "ipv4.dns");
    ValueLast("ipv4.dns", dns, "ipv4.dns");
  }

  /** Servers of its own, and no automatic ones, for the connection that was found. */
  lemma DnsSettings(op: NetOp, connection: Option<string>, wait: string)
    requires op.Dns? && connection.Some?
    ensures var commands := Commands(op, connection, wait);
            && |commands| == 2 && |commands[0]| >= 4
            && commands[0][..4] == ["nmcli", "con", "mod", connection.value]
            && ValueOf(commands[0][4..], "ipv4.dns") == Some(op.servers)
            && ValueOf(commands[0][4..], "ipv4.ignore-auto-dns") == Some("yes")
  {
    var words := ["ipv4.dns", op.servers] + (["ipv4.ignore-auto-dns", "yes"] + []);
    ValueNext("ipv4.dns", op.servers, ["ipv4.ignore-auto-dns", "yes"] + [], "ipv4.dns");
    ValueNext("ipv4.dns", op.servers, ["ipv4.ignore-auto-dns", "yes"] + [], "ipv4.ignore-auto-dns");
    ValueNext("ipv4.ignore-auto-dns", "yes", [], "ipv4.ignore-auto-dns");
    hide ValueOf;
    assert Commands(op, connection, wait)[0][4..] == words;
  }

  /** Access point and credentials, in the profile that was found, or in a new gsm profile of the wanted
      name or the usual one. */
  lemma LteSettings(op: NetOp, connection: Option<string>, wait: string)
    requires op.Lte?
    ensures var commands := Commands(op, connection, wait);
            && |commands| == 2 && |commands[0]| >= 4
            && (if connection.Some? then commands[0][..4] == ["nmcli", "con", "mod", connection.value]
                else
                  && |commands[0]| >= 9
                  && commands[0][..9]
                     == ["nmcli", "con", "add", "type", "gsm", "ifname", "*", "con-name",
                         if op.connection.Some? then op.connection.value else "lte"])
            && var words := commands[0][if connection.Some? then 4 else 9..];
               && ValueOf(words, "gsm.apn") == Some(op.apn)
               && ValueOf(words, "gsm.username") == op.user
               && ValueOf(words, "gsm.password") == op.pass
  {
    var pass := OptionWords("gsm.password", op.pass);
    var creds := OptionWords("gsm.username", op.user) + pass;
    var words := ["gsm.apn", op.apn] + creds;
    ValueNext("gsm.apn", op.apn, creds, "gsm.apn");
    ValueNext("gsm.apn", op.apn, creds, "gsm.username");
    ValueNext("gsm.apn", op.apn, creds, "gsm.password");
    ValueOptional("gsm.username", op.user, pass, "gsm.username");
    ValueOptional("gsm.username", op.user, pass, "gsm.password");
    ValueLast("gsm.password", op.pass, "gsm.username");
    ValueLast("gsm.password", op.pass, "gsm.password");
    hide ValueOf, OptionWords;
    assert Commands(op, connection, wait)[0][if connection.Some? then 4 else 9..] == words;
  }

  /** Devices and connections brought up or taken down, as asked, by name. */
  lemma UpAndDown(op: NetOp, connection: Option<string>, wait: string)
    requires op.Interface? || op.Connection?
    ensures Commands(op, connection, wait)
         == [["nmcli", "-w", wait] + if op.Interface? then ["dev", if op.up then "connect" else "disconnect", op.name]
                                     else ["con", if op.up then "up" else "down", op.name]]
  {}
}
