# Verified model of the gateway's device methods

A Dafny model of the parts of the gateway where being right depends on timing, interleaving or arithmetic, and proofs
about it. `dafny verify dfyconfig.toml` checks the whole project.

| Files | What they model |
|---|---|
| `NetworkManager`, `NetApply`, `NetApplySession` | `net_apply`: the program, NetworkManager with its checkpoint timer, and a shared clock |
| `NetApplySafety`, `NetApplyPacing` | what every run keeps, and when it does what |
| `NetApplyStranding`, `NetApplyOutcome` | whether the device can be stranded, whether what is reported is so |
| `ToolCalls` | that a tool call of that model is a run of a command as `CommandRunner` has it, no more and no less |
| `NetCommands`, `Terse`, `Checkpoints` | the nmcli command lines, and reading nmcli's and NetworkManager's replies |
| `Crc`, `CrcDetection`, `CrcDivision` | the Modbus RTU checksum: what it computes, what it detects |
| `Frames` | requests, replies, and receiving a reply piece by piece |
| `ScanOrder`, `ScanPort`, `ParallelScan` | the order of a scan, the scan of a port, and all ports in parallel with their stop flag |
| `CommandRunner`, `Capture`, `Streaming` | running one command: timeout, cancellation, captured output, progress updates |
| `Shell` | quoting for `sh -c`, against the shell's own rules |
| `Wifi`, `WifiText` | the wifi list, and reading it from text |
| `Subnets`, `SubnetText` | IPv4 network arithmetic, and ranges as text |
| `Text` | trimming and decimal numbers |

## How the outside enters

Everything the program does not decide is a parameter, and the main results hold for all its values.

- `net_apply` runs against a *schedule*: for each tool call whether the tool is there, how long until its request
  reaches NetworkManager (if it does), how long until the tool is done, whether it reports success, and whether the
  request is cancelled meanwhile. A tool is killed at its timeout: it takes effect by then or never, has failed, and
  its pipes get one second more. `ToolCalls` proves that these are the runs of `run_command`. The timer of a checkpoint
  fires at its deadline or any time later. The log holds every call; a crash is a log cut short.
- A port is a function from the number and content of a request to what the transaction returns, or a failure. A scan's
  threads take their steps in any order.
- A command is a few moments: when it would exit, when its pipes would end, when the request is cancelled.

Assumptions of the `net_apply` model: a command takes effect at one instant, at the latest when it is killed; `con up`
activates the stored profile and changes nothing else; NetworkManager serves nobody else meanwhile; a tool that is not
there takes no time from an attempt that finds it; the clock is exact and computing takes none of it; one second is one
second (`NetTiming`'s default).

## What came out

Most of what the code and its documentation promise holds, for all inputs and all runs. Where it does not, the model
follows the code, and the exact condition is proved:

1. **Stranding.** A run stopped anywhere leaves the device to be restored by the timer, or with a checkpoint destroyed
   after the platform answered, *if the changes are over before the timer fires*. `EnoughTime` says when that is, from
   the operation, the rollback time and NetworkManager's promptness, and `StrandingExactly` proves it necessary as well
   as sufficient. For the operations that edit a profile and then activate it there is a surprise: with less than 120
   seconds, a `con up` that gets through after the rollback activates whatever the old profile holds, so the device must
   have been running the profile it had stored. From 66 seconds on, and the default is 90, that is all there is to
   suppose (`NoStrandingFrom66`).
2. **A lost reply to `CheckpointDestroy`.** The change is kept and yet reported as rolled back, without reservation
   (`LostDestroyReply`). README.md:256-258 speaks of the timer as the last word. With enough time such a report is true
   exactly if destroying the checkpoint took no effect, or the platform had answered under the old configuration
   (`RolledBackExactly`). `RestoredExactly` says the same of every run, however it ends, and `CancelledRollsBack` of the
   cancelled ones, of which `CancelledAndKept` is one that keeps its change.
3. **"complete" is never reported.** A scan that ends without a hit is always called cancelled
   (`CompleteIsNeverReported`, `CancelledByNobody`), though README.md:319 lists the word.
4. **One flipped bit can survive.** The function byte of a data reply decides how many bytes are checked; with that bit
   wrong a data reply can pass for an exception reply (`FunctionByteMatters`), and one flipped bit of its length byte
   can leave a shorter data reply (`LengthByteMatters`). `CorruptedData` says exactly when.
5. **The version misses truncation.** Output that finds a buffer just full sets its mark and leaves the version
   (`TruncationUnversioned`), so a streamed update may be late in saying so, by a heartbeat and a tick at most
   (`MarksArrive`). The bytes themselves are never late.

## Model

| member | source | states |
|---|---|---|
| `NetApplySession.Session.RunTool` | src/diag.rs:122-165 | One tool call changes clock, NetworkManager, cancellation and log as the schedule has it: nothing starts once the request is cancelled, and a tool not done by its timeout has failed, its request through by then or never |
| `NetApplySession.Session.Doze` | src/diag.rs:113-118 | A sleep takes its time, or ends at the cancellation |
| `NetApplySession.Session.MakeCheckpoint` | src/netapply.rs:673-700 | busctl is tried, and dbus-send only if busctl is missing; the whole new state is that of the specification |
| `NetApplySession.Session.ApplyChanges` | src/netapply.rs:838-852 | The commands run in order up to the first that fails, each under its own timeout |
| `NetApplySession.Session.VerifyPlatform` | src/netapply.rs:856-872 | The polling loop ends, and is the specification's recursion, state included |
| `NetApplySession.Session.WaitForRollback` | src/netapply.rs:745-772 | Waiting, reading the pending checkpoints and rolling back explicitly, with the note each path leaves |
| `NetApplySession.Session.LookUp` | src/netapply.rs:784-835 | Whether and how the connection is looked up before anything changes |
| `NetApplySession.Session.NetApply` | src/netapply.rs:889-1040 | The imperative flow, every branch of it, changes the session exactly as the specification that the results below are about |
| `ToolCalls.RunIsCall` | src/executor.rs:235-309 | Whatever a command does under its timeout, cancellation and drain, some call of the model ends at the same moment, has the same effect, succeeds exactly if the result passes the check, and leaves the request cancelled exactly if it was by then |
| `ToolCalls.CallIsRun` | src/executor.rs:235-309 | And every call of the model is such a run of a command, its cancellation included: none succeeds after its timeout or takes effect after it was killed |
| `ToolCalls.ToolIsCall` | src/diag.rs:122-165 | Whatever `Runner::run` does over its places, the call of the model can do: no answer where it finds no tool or a cancelled request, success where the check passes |
| `ToolCalls.SucceedsInTime` | src/netapply.rs:838-852 | A call succeeds exactly within nmcli's wait and ten seconds for a change, eight seconds for a check of the platform, ten for anything else |
| `NetApplySafety.RunHasShape` | src/netapply.rs:889-1029 | The log of every run is lookups, then attempts at a checkpoint, then changes, then checks, then an end of few forms, with where each part stops |
| `NetApplySafety.TraceDiscipline` | src/netapply.rs:673-1029 | In every run: one checkpoint at most is made, no change comes before it unless the operation is harmless and no D-Bus tool was found, it is destroyed only straight after a good check, never after a rollback was asked for, and nothing but waiting for the rollback follows |
| `NetApplySafety.NothingAfterCancel` | src/diag.rs:113-165 | In every run the flag once set stays set, and what had been started when the request was first found cancelled, in a call, between checks, or in the wait for the rollback, is the whole log |
| `NetApplyPacing.EverythingInTime` | src/netapply.rs:863-1029 | In every run each call starts the moment the one before is over, the first at once, but a check that follows a failed one three seconds after it, and the look for the rollback two seconds after it is due, counted from when the checkpoint was confirmed, if it is not later already |
| `NetApplyPacing.ChangesAreThose` | src/netapply.rs:838-852 | In every run the changes made are the operation's own, in order, each with nmcli's wait, and the platform is checked only when all of them were made |
| `NetApplyPacing.GivesUpLate` | src/netapply.rs:856-872 | A run that reports the platform unreachable checked it until it was too late for another check three seconds on, ten seconds before the rollback, counted from when the checkpoint was first asked for; or its changes took all that time |
| `NetApplyPacing.WaitInNumbers` | src/netapply.rs:419-421 | The wait is the longest up to 45 seconds that leaves twenty, and ten at least |
| `NetApplyPacing.WaitCutShort` | src/diag.rs:113-118 | A cancellation ends the wait for the rollback at that moment, with nothing asked |
| `NetApplyPacing.PollCutShort` | src/diag.rs:113-118 | And the pause between checks |
| `NetApplyStranding.CutShort` | src/netapply.rs:874-879 | What `NeverStranded` means for a program that dies: past the timer the device has its old configuration for good |
| `NetApplyStranding.OrphanExactly` | src/netapply.rs:838-852 | A change left behind by a program that died in the middle of a call is harmless exactly if it gets through before the timer fires, or makes no difference to the old configuration |
| `NetApplyStranding.TenSecondsSuffice` | src/netapply.rs:419-421 | For every rollback time from 30 to 300 seconds, nmcli's wait leaves room for an answer to `CheckpointCreate` within ten seconds; from 120 seconds on without regard to the profile |
| `NetApplyStranding.EnoughTimeInNumbers` | src/netapply.rs:419-421 | What enough time is, in plain numbers of rollback time, wait and number of commands |
| `NetApplyStranding.NoStranding` | src/netapply.rs:838-1029 | With enough time, under every schedule of results, delays and cancellations and wherever the run is cut short, the device settles to its old configuration unless the checkpoint was destroyed after a good check |
| `NetApplyStranding.TooLittleTimeStrands` | src/netapply.rs:838-852 | Without enough time there is a schedule, no call in it longer than the program waits, that strands the device |
| `NetApplyStranding.StrandingExactly` | src/netapply.rs:419-421 | `EnoughTime` is exactly the condition under which no run can strand the device |
| `NetApplyOutcome.NoStrandingFrom66` | src/netapply.rs:27-29 | From a rollback time of 66 seconds on, the default included, no run strands the device, with nothing supposed of how fast anything answers; below 121 it has to run the profile it has stored if one is edited |
| `NetApplyStranding.RunsInARow` | src/app.rs:346-360 | Any number of requests one after another, each stopped anywhere, even with the last one's checkpoint pending: as long as none was kept the device settles to what it started from |
| `NetApplyOutcome.RunRecorded` | src/netapply.rs:889-1029 | The log of every run is a continuous account: times in order, each event within its timeout, NetworkManager's state following from the event before |
| `NetApplyOutcome.TimingSandwich` | src/netapply.rs:930-934 | In every run a check starts over ten seconds before the timer can fire, a good one is over before it fires, with the checkpoint pending and the last change in place, and pending checkpoints are read only two seconds after the timer is due |
| `NetApplyOutcome.OutcomeCoherent` | src/netapply.rs:905-1029 | In every result: with a checkpoint, applied, verified and not rolled back are one; without one nothing is rolled back, applied is that the changes were made, and the operation was one that brings something up; no reason exactly if verified; an unreserved rollback was confirmed by NetworkManager and every note on it is so; a verified result follows a good check and an acknowledged destroy |
| `NetApplyOutcome.CheckpointIsReal` | src/netapply.rs:905-916 | A result speaks of a checkpoint exactly if NetworkManager confirmed one |
| `NetApplyOutcome.BeginsRightly` | src/netapply.rs:673-929 | How every run begins: a lookup first exactly for operations by interface and `lte`, and on only if it succeeds and finds one, `lte` excepted; without a tool for the checkpoint both were tried; each refusal has its own cause |
| `NetApplyOutcome.ReasonIsTrue` | src/netapply.rs:940-1029 | The reason of every result is what happened: a change that failed, with or without its rollback; no good check after changes that all succeeded; a destroy that failed after a good check; none after a good check |
| `NetApplyOutcome.RefusedBeforeAnyChange` | src/netapply.rs:905-929 | A run without a result was cancelled, or made no change at all: it only looked the connection up and tried for a checkpoint, and got none |
| `NetApplyOutcome.VerifiedIsKept` | src/netapply.rs:987-997 | After a verified result the device keeps for good the configuration the platform answered under |
| `NetApplyOutcome.DestroyedIsKept` | src/netapply.rs:987-1009 | Whenever destroying the checkpoint took effect, whatever was reported, the run leaves the configuration the platform answered under in the check before, for good |
| `NetApplyOutcome.RestoredExactly` | src/netapply.rs:838-1029 | With enough time a run settles to the configuration it found if and only if destroying the checkpoint took no effect, or the platform had answered under that same configuration |
| `NetApplyOutcome.RolledBackExactly` | src/netapply.rs:952-1023 | With enough time, after an unreserved report of a rollback the device is as it was if and only if destroying the checkpoint took no effect, or the platform had answered under that same configuration |
| `NetApplyOutcome.CancelledRollsBack` | src/netapply.rs:874-879 | A cancelled run settles to the old configuration under the same condition, and if it destroyed the checkpoint that call had been started when the request was first found cancelled |
| `NetApplyOutcome.LostDestroyReply` | src/netapply.rs:995-1009 | That exception occurs: the change is kept and reported as rolled back |
| `NetApplyOutcome.CancelledAndKept` | src/netapply.rs:874-879 | A cancelled run that keeps its change: the cancellation comes while the checkpoint is being destroyed |
| `NetCommands.CommandsReachNmcli` | src/diag.rs:145-146 | Every command of every operation comes out of the shell word for word |
| `NetCommands.CommandsCarry` | src/netapply.rs:427-567 | The protocol's steps are the commands run, one for one, whatever names and values are in them; where there are two the second activates the profile the first edits; harmless is exactly what brings something up; what is to go down is taken down; only the last command waits; a lookup is needed exactly by interface and for `lte` |
| `NetCommands.WifiSettings` | src/netapply.rs:461-474 | The network joined, and its password and interface exactly if given |
| `NetCommands.Ipv4Settings` | src/netapply.rs:475-510 | A reader of the key and value words gets the method, the address and the gateway asked for, nothing where there is none, and servers exactly if given, for the connection found |
| `NetCommands.DnsSettings` | src/netapply.rs:511-526 | The servers, and no automatic ones, for the connection found |
| `NetCommands.LteSettings` | src/netapply.rs:535-565 | Access point and credentials, in the profile found or a new gsm one of the wanted name |
| `NetCommands.UpAndDown` | src/netapply.rs:527-534 | Devices and connections are brought up or taken down as asked, by name |
| `Terse.SplitTerse` | src/parse.rs:19-34 | The loop, escapes and a backslash at the very end included, gives the recursive reading of the line |
| `Terse.TerseRoundTrip` | src/parse.rs:17-34 | Splitting undoes escaping and joining, for every nonempty list of fields |
| `Terse.BackslashReads` | src/parse.rs:24-28 | A backslash at the end of a line stands for nothing, and before any character for that character |
| `Terse.TableRoundTrip` | src/netapply.rs:570-574 | The lines of a printed table whose values have no newlines, split, are its rows if and only if no line ends in a carriage return |
| `Terse.UnendedTableRead` | src/netapply.rs:571 | A last line without a newline is read too, as it stands |
| `Terse.ActiveConnectionIsFirst` | src/netapply.rs:569-575 | On any printed table without newlines in its values the name of the first row whose second field is the device is found, and nothing exactly when there is none, a carriage return at the end of a line not being part of it |
| `Terse.LteConnectionIsFirst` | src/netapply.rs:577-589 | Likewise the wanted name, if some row has it, or that of the first row whose second field is "gsm" when none is wanted |
| `Checkpoints.CreateReplyRead` | src/netapply.rs:648-658 | The new checkpoint's path is read from busctl's and dbus-send's form of reply, whatever its number |
| `Checkpoints.PathFromReply` | src/netapply.rs:651-658 | For every reply: a path is read exactly if where the prefix first stands a number follows it, and then a quote, a blank, a newline or nothing |
| `Checkpoints.ListedIffMember` | src/netapply.rs:735-740 | On any printed list of checkpoints the substring search comes to membership: 4 is never taken for 41 or 14 |
| `Crc.Crc16` | src/scan.rs:140-153 | The two loops compute the register's value after the message's wire bits, for every byte string |
| `Crc.AbsorbLinear` | src/scan.rs:145-150 | The register is linear: over the difference of two bit strings it is the difference of theirs |
| `Crc.ShiftInjective` | src/scan.rs:145-150 | No two registers become equal by shifting |
| `CrcDetection.ValidIffZero` | src/scan.rs:181-186 | A frame is valid exactly if its checksum, its own two checksum bytes included, is zero |
| `CrcDetection.FrameIsValid` | src/scan.rs:156-162 | What is sent, low checksum byte first, is valid |
| `CrcDetection.BurstDetected` | src/scan.rs:140-153 | Two valid frames of one length that differ only within sixteen consecutive wire bits are the same frame, at any length and place |
| `CrcDetection.StepKeepsParity` | src/scan.rs:145-150 | A shift keeps the parity of the register's ones |
| `CrcDetection.ValidHasEvenWeight` | src/scan.rs:181-186 | Every valid frame has an even number of one bits |
| `CrcDetection.OddErrorDetected` | src/scan.rs:181-186 | Any odd number of wrong bits makes a valid frame invalid |
| `CrcDetection.OneBitIsOdd` | src/scan.rs:181-186 | A single wrong bit is such an error, wherever it is |
| `CrcDivision.Divides` | src/scan.rs:139 | Long division over GF(2): quotient times generator plus remainder is the dividend |
| `CrcDivision.DivisionUnique` | src/scan.rs:139 | And quotient and remainder are the only ones |
| `CrcDivision.AbsorbIsRemainder` | src/scan.rs:140-153 | From any register, over any bits, the register is the remainder of a division |
| `CrcDivision.ChecksumIsRemainder` | src/scan.rs:140-153 | The checksum, low bit first, is the remainder by x^16 + x^15 + x^2 + 1 of the message times x^16, its first sixteen bits inverted |
| `Frames.RequestReads` | src/scan.rs:156-162 | What a server reads from a request: a valid frame to the unit, function 3, from register 0, one register |
| `Frames.ClassifyExact` | src/scan.rs:177-208 | A buffer is recognised exactly if the bytes its header asks for are there and are a reply; what follows never matters; everything else is Garbage |
| `Frames.PrefixIncomplete` | src/scan.rs:202-208 | No proper part of a reply meets the length it asks for |
| `Frames.Transact` | src/scan.rs:283-337 | The reception loop, with its waits, deadline, gap, signals and failures, over whatever arrives when, is the recursive reception |
| `Frames.ReceptionEnds` | src/scan.rs:295-336 | Of anything that arrives, exactly the bytes that come while they are waited for are received: before the deadline, no further than the gap apart, and until the reply is complete; nothing later adds to them, and a failure among them is reported |
| `Frames.ChunkIndependence` | src/scan.rs:283-337 | However a reply is cut into chunks, if they come in time and no further than the gap apart it is received whole and recognised for what it is, whatever follows it |
| `Frames.BrokenReply` | src/scan.rs:319-324 | A reply broken off by a silence longer than the gap, or by the deadline, is received as far as it came and is Garbage, whatever comes after |
| `Frames.CorruptedException` | src/scan.rs:177-199 | An exception reply with an odd number of wrong bits anywhere is Garbage |
| `Frames.CorruptedData` | src/scan.rs:177-199 | A data reply with an odd number of wrong bits is Garbage except exactly when its header now asks for fewer bytes and those are a reply |
| `Frames.FunctionByteMatters` | src/scan.rs:189-193 | That exception occurs: one flipped bit turns a data reply into an exception reply |
| `Frames.LengthByteMatters` | src/scan.rs:193-196 | So does it with the length byte: one flipped bit leaves a data reply, a shorter one |
| `ScanOrder.UnitOrder` | src/scan.rs:105-124 | The loops compute the distinct valid hints followed by the rest from both ends |
| `ScanOrder.UnitsExactlyOnce` | src/scan.rs:103-124 | For any hints each of the 247 units comes exactly once, the distinct valid hints first and in order |
| `ScanOrder.HintsInOrder` | src/scan.rs:105-112 | Hinted units come in the order in which they are first hinted, before all others |
| `ScanOrder.UnhintedOrder` | src/scan.rs:113-121 | Without hints, each unit comes at its one place, 2(u - 1) or 2(247 - u) + 1, and nowhere else |
| `ScanOrder.UnitNotMuchLater` | src/scan.rs:105-124 | Hints move no unit back by more than the number of distinct valid hints |
| `ScanOrder.SettingsOrder` | src/scan.rs:127-135 | The loop computes hints then defaults without repeats |
| `ScanOrder.SettingsExactlyOnce` | src/scan.rs:126-135 | Each hinted or default setting comes exactly once, so no default is lost |
| `ScanOrder.SettingsInOrder` | src/scan.rs:127-135 | Settings come as they are first hinted, and then as they stand among the defaults |
| `ScanPort.PlanAt` | src/scan.rs:636-652 | Which unit is asked at which setting at each place of the plan |
| `ScanPort.PlanExactlyOnce` | src/scan.rs:636-652 | The plan asks each unit at each setting, once |
| `ScanPort.ScanPort` | src/scan.rs:616-695 | What was asked is a prefix of the plan, each request after a read of the flag of its own that found it clear; report and counts are those of what was asked; a hit is the last thing asked and the first to answer; without one the plan was carried out, a transaction failed, or the flag was read as set |
| `ScanPort.ReportInNumbers` | src/scan.rs:641-692 | The report counts the requests, and those that came back as noise; names every other unit heard, once; and, all settings tried, the last one the port refused |
| `ScanPort.FoundIsFirst` | src/scan.rs:666-684 | On a steady bus a hit is the first answering place of the plan |
| `ScanPort.NothingMissed` | src/scan.rs:636-694 | On a steady bus silence all through means that no unit answers at any hinted or default setting |
| `ScanPort.ScanWhole` | src/scan.rs:616-695 | On a steady bus the scan finds the first answering unit of the plan, and finds none exactly if none answers, having asked each of 247 units once at each setting |
| `ParallelScan.RunInv` | src/scan.rs:726-771 | In every interleaving, what every worker has found out by every moment, and why the flag is set |
| `ParallelScan.Work` | src/scan.rs:734 | What `scan_port` returns, whenever the flag is set, is one of the ends the workers of the interleavings come to, with no more requests than reads of the flag that found it clear |
| `ParallelScan.FoundWrittenOnce` | src/scan.rs:749-760 | In every interleaving `found` is written at most once, and flag, cancellation and collected results stay |
| `ParallelScan.OneMoreRequest` | src/scan.rs:646-649 | In every interleaving a port starts at most one more request once the flag is set |
| `ParallelScan.OneRequestOnTheWire` | src/scan.rs:656-663 | In every interleaving a port's transaction is over before its next request |
| `ParallelScan.StopsSoon` | src/scan.rs:636-649 | In every interleaving a worker takes at most four more steps once the flag is set, and after four it is collected |
| `ParallelScan.CancelStopsScan` | src/scan.rs:736-760 | In every interleaving, once the request has been cancelled and the watcher has looked, the flag is set and the watcher done, no worker takes more than four more steps and no port starts more than one more request |
| `ParallelScan.WatcherLooks` | src/scan.rs:736-747 | In every interleaving the watcher can go on until it is done, looks at the request after finding the flag clear, and is done after finding it set |
| `ParallelScan.WorkersEnd` | src/scan.rs:636-694 | In every interleaving, stopped or not, a worker takes at most three steps for each unit of its plan and each of the settings, and three besides |
| `ParallelScan.NeverStuck` | src/scan.rs:726-760 | In every interleaving, until there is a result every worker not collected can go on, and when all are the result can be made |
| `ParallelScan.ResultIsRight` | src/scan.rs:726-769 | In every interleaving a hit is reported exactly if a worker had one, and is one of those; without one and without cancellation every port's plan was carried out, or the port failed |
| `ParallelScan.ScanFindsWhatIsThere` | src/scan.rs:699-769 | Over steady ports, for all hints and interleavings, an uncancelled scan finds a device exactly if one is there to be found, and it is the first of its port's plan that answers |
| `ParallelScan.CompleteIsNeverReported` | src/scan.rs:761-770 | In every interleaving the verdict is "found" with a hit and "cancelled" without one, never "complete" |
| `ParallelScan.CancelledByNobody` | src/scan.rs:761-770 | A run nobody cancelled that is called cancelled |
| `CommandRunner.Select` | src/executor.rs:262-266 | Of the futures of a `select!` one that is ready first wins |
| `CommandRunner.RunCommand` | src/executor.rs:235-309 | The two waits and the drain come to one race of command, deadline and cancellation; the exit code is missing exactly if one of the last two won; then the process group was killed at that moment, draining after a normal exit included, and the call is over within a second of it |
| `CommandRunner.RanInNumbers` | src/executor.rs:262-309 | The same in plain moments: with an exit code the command and both its pipes were over, in time and before any cancellation; otherwise neither, everything was killed at that moment, and the call was over within a second |
| `CommandRunner.RunTool` | src/diag.rs:122-165 | For every place, outcome and cancellation: the host first if allowed, the container only after the host could not run the tool or did not find it (exit 127), the result that of the first to find it; nothing on the host when that is off; each refusal for its own cause |
| `Capture.LiveOutput.Absorb` | src/executor.rs:126-142 | One read's effect on buffer, mark and version |
| `Capture.LiveOutput.AbsorbAll` | src/executor.rs:120-143 | The effect of any sequence of reads |
| `Capture.CaptureIsPrefix` | src/executor.rs:120-143 | For any chunks and interleaving each buffer is its stream or the first `limit` bytes of it, marked truncated exactly if there were more |
| `Capture.VersionTells` | src/executor.rs:139-142 | Bytes and marks are never taken back, and versions are equal exactly if the bytes are |
| `Capture.TruncationUnversioned` | src/executor.rs:134-142 | A read changes something without changing the version exactly when it finds the buffer full and not yet marked |
| `Streaming.StreamOutput` | src/app.rs:256-302 | Every update has bytes that are news or comes a heartbeat after the one before, and carries the buffers as they were; updates are at most a heartbeat and a tick apart; at every tick, the shorter of interval and heartbeat, everything captured has been sent |
| `Streaming.LiveGrows` | src/app.rs:278-282 | From tick to tick buffers only grow, marks stay, and while the version stays the bytes are the same |
| `Streaming.SnapshotsArePrefixes` | src/app.rs:253-255 | Each update's bytes begin with those of the one before, and the result with those of the last |
| `Streaming.MarksArrive` | src/app.rs:280-291 | A mark of truncation is in some update within a heartbeat and a tick, unless the command ends before |
| `Shell.ShellRoundTrip` | src/executor.rs:112-117 | The shell reads a joined argument list as exactly those words, for every list |
| `Shell.ShellJoinInjective` | src/executor.rs:112-117 | Different argument lists are different lines |
| `Shell.ReadQuoted` | src/executor.rs:102-108 | A quoted word is read as that word and ends unquoted, wherever it stands |
| `Shell.ScriptChangesDirectory` | src/executor.rs:94-99 | A directory of any name is one argument of the `cd` before the command |
| `Shell.ScriptRunsCommand` | src/executor.rs:94-99 | Without a directory the script for a joined argument list is read as that list |
| `Wifi.WifiList` | src/parse.rs:125-147 | Of any rows: every name but "" and "--", once, each by the first row with the highest number its name has, without one only if none has; higher numbers first, no number last, equals by first appearance |
| `WifiText.NmcliWifiList` | src/parse.rs:36-147 | The same of the rows that are in the text: lines not blank, split, of four fields or more, trimmed and with their numbers read |
| `WifiText.WifiTableRead` | src/parse.rs:121-142 | What nmcli prints for any access points, whatever they are called and with any readings or none, is read as those networks |
| `WifiText.PrintedListed` | src/parse.rs:121-147 | So the list for printed access points has every name, no signal of that name above the one listed, and higher numbers first |
| `Wifi.SortRanks` | src/parse.rs:145 | The sort is stable, descending, and a permutation |
| `Subnets.NetworkClearsLow` | src/parse.rs:575-585 | Shift and mask, at 32 bits, clear exactly the bits beyond the prefix, /0 included |
| `Subnets.ContainsIsRange` | src/parse.rs:587-593 | A network's addresses are those from its address up to that plus its size |
| `Subnets.ScanRangesFit` | src/parse.rs:604-638 | A range is accepted exactly up to 1024 addresses; a guessed one contains the device, lies inside the device's network, and is all of that or 1024 addresses of it |
| `SubnetText.RangeRead` | src/parse.rs:604-629 | Every address with every prefix up to 255, as text with any white space around it, is accepted exactly from /22 to /32, as the network it is in, and refused for its own reason otherwise |
| `SubnetText.AcceptedExactly` | src/parse.rs:604-629 | A text is accepted, as a given range, if and only if without the white space around it it is a dotted address with that network, alone or followed by a slash and a number from 22 to 32, which may have a plus and zeros in front |
| `SubnetText.BareAddressRead` | src/parse.rs:611-613 | Every bare address is its /32 |
| `SubnetText.RangeRoundTrip` | src/parse.rs:596-629 | Every range that may be scanned is read back as it is printed |

## Left out

- NoStranding: a command is atomic, so an activation that NetworkManager goes on with after nmcli was killed is not in the model; and it is killed at its timeout, so neither is one that outlives a crash of the program in the middle of the call, with nobody to kill it (`OrphanExactly` says when that one is harmless).
- StrandingExactly: an `lte` operation that adds its profile is taken for one that edits it; deleting the new profile on rollback is not modelled.
- RunsInARow: the lock itself, and the `BUSY` error for a second request, are not modelled; that requests come one after another is what it gives.
- CommandsCarry: what nmcli takes a command line to mean covers the forms used here, not nmcli's grammar.
- ShellRoundTrip: assignments, reserved words and aliases, which the shell recognises after splitting, are not modelled; neither is the NUL character.
- Transact: waits are whole milliseconds, and a chunk may have any size, not at most 256 bytes.
- RunCommand: `select!`'s random choice between futures ready at once is a parameter, and a `kill` always ends the command at once.
- StreamOutput: an update takes no time to send and its failure, which is only logged, is not modelled.
- ScanFindsWhatIsThere: a worker that panics, which makes the whole scan fail, is not modelled, nor is a memory order weaker than sequential.
- TableRoundTrip: values with newlines in them, which no line-by-line reading can tell from the ends of lines.
- ToolIsCall: an attempt that finds no tool is taken to take no time.
- Process spawning, namespaces, `kill`, termios, `poll`, `tcflush`, sysfs and procfs: foreign calls, here outcomes.
- `with_progress`: the same loop as `stream`, with text for output.
- The argument lists of busctl and dbus-send, and NetworkManager's object path beyond its number.
- Checking of JSON parameters: each case is settled by reading it.
- `net_status`, `scan_network`, `net_wifi_scan`: tools run in sequence and their results collected.
- `src/modbus.rs`: the argument list of mbpoll and the reading of its text.
- Extractors for `ip`, `mmcli`, resolvectl and arp-scan output, whose formats are other programs' own.
- Which serial ports are candidates, and their ranking.
- Lossy decoding of UTF-8: output is bytes.
- The inter-frame gap, computed in floating point: a parameter.
