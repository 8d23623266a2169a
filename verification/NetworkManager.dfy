/** NetworkManager as `net_apply` (src/netapply.rs) relies on it: a configuration, and at most one
    pending checkpoint whose timer restores what it saved. Times are milliseconds. */
module NetworkManager {
  import opened Wrappers

  /** The device's network configuration: the stored profile the change edits, and what the device
      actually runs. Which profile is which number does not matter. */
  datatype Config = Config(stored: int, active: int)

  datatype Checkpoint = Checkpoint(saved: Config, firesAt: nat)

  datatype Nm = Nm(config: Config, pending: Option<Checkpoint>)

  /** What an nmcli command does: edit or add the stored profile; activate the stored profile; or
      change the device directly. */
  datatype Change = Modify(stored: int) | Activate | Direct(config: Config)

  datatype Request =
    | Lookup
    | Create(rollback: nat)
    | Apply(change: Change, wait: nat)
    | PlatformCheck
    | Destroy
    | Rollback
    | ListPending

  /** NetworkManager left alone until time `t`. */
  function Advance(nm: Nm, t: nat): Nm {
    if nm.pending.Some? && nm.pending.value.firesAt <= t then Nm(nm.pending.value.saved, None) else nm
  }

  /** The configuration the device ends up with if nobody asks for anything any more. */
  function Settled(nm: Nm): Config {
    if nm.pending.Some? then nm.pending.value.saved else nm.config
  }

  function Changed(config: Config, change: Change): Config {
    match change
    case Modify(stored) => config.(stored := stored)
    case Activate => config.(active := config.stored)
    case Direct(c) => c
  }

  /** Whether NetworkManager does what is asked: it refuses a second checkpoint, and has none to
      destroy or roll back once it is gone. */
  predicate Accepts(nm: Nm, request: Request) {
    match request
    case Create(_) => nm.pending.None?
    case Destroy => nm.pending.Some?
    case Rollback => nm.pending.Some?
    case _ => true
  }

  /** An accepted request carried out at time `t`. A new checkpoint's timer may fire `late`. */
  function Execute(nm: Nm, t: nat, request: Request, late: nat): Nm
    requires Accepts(nm, request)
  {
    match request
    case Create(rollback) => nm.(pending := Some(Checkpoint(nm.config, t + 1000 * rollback + late)))
    case Apply(change, _) => nm.(config := Changed(nm.config, change))
    case Destroy => nm.(pending := None)
    case Rollback => Nm(nm.pending.value.saved, None)
    case _ => nm
  }

  /** What `Settled` means: once the timer is past, that is the configuration, at every later time. */
  lemma SettledIsReached(nm: Nm, t: nat)
    requires nm.pending.Some? ==> nm.pending.value.firesAt <= t
    ensures Advance(nm, t).config == Settled(nm) && Advance(nm, t).pending.None?
  {}

  /** Everything but destroying the checkpoint leaves the settled configuration alone, except a change
      made while no checkpoint is pending. */
  lemma ExecuteSettles(nm: Nm, t: nat, request: Request, late: nat)
    requires Accepts(nm, request) && !request.Destroy?
    requires request.Apply? ==> nm.pending.Some? || Changed(nm.config, request.change) == nm.config
    ensures Settled(Execute(nm, t, request, late)) == Settled(nm)
  {}
}
