/**
 The life cycle of the monitoring daemon: the handlers that start, stop and
 reconfigure it around a mutex-guarded slot and a configuration file, first as
 whole handlers, then as interleaved steps.
 */
module Monitor {
  import opened Wrappers

  // ---- configuration -----------------------------------------------------------------------

  datatype Alerting = Default | Edited(json: string)

  datatype Instance = Instance(name: string, connection: string)

  /** What a daemon runs with. */
  datatype Config = Config(instances: seq<Instance>, alerting: Alerting)

  /** The file that outlives the process. */
  datatype Persisted = Persisted(autostart: bool, instances: seq<Instance>, alerting: Alerting)

  function AlertingOn(disk: Option<Persisted>): Alerting {
    match disk case None => Default case Some(p) => p.alerting
  }

  function InstancesOn(disk: Option<Persisted>): seq<Instance> {
    match disk case None => [] case Some(p) => p.instances
  }

  function AutostartOn(disk: Option<Persisted>): bool {
    match disk case None => false case Some(p) => p.autostart
  }

  /** What is relaunched on boot, if anything. */
  function BootConfig(disk: Option<Persisted>): Option<Config> {
    if AutostartOn(disk) && InstancesOn(disk) != [] then Some(Config(InstancesOn(disk), AlertingOn(disk))) else None
  }

  function Bag(o: Option<Config>): multiset<Config> {
    match o case None => multiset{} case Some(c) => multiset{c}
  }

  function Joined(live: multiset<Config>, o: Option<Config>): multiset<Config> { live + Bag(o) }

  function Gone(live: multiset<Config>, o: Option<Config>): multiset<Config> { live - Bag(o) }

  lemma BagFacts(o: Option<Config>)
    ensures Bag(None) == multiset{} && Joined(Bag(None), o) == Bag(o) && Gone(Bag(o), o) == Bag(None)
    ensures |Bag(o)| <= 1
  {
  }

  lemma NothingGone(live: multiset<Config>)
    ensures Gone(live, None) == live
  {
  }

  // ---- whole handlers ------------------------------------------------------------------------

  /** The file, the slot, and the daemons actually alive. */
  datatype Core = Core(disk: Option<Persisted>, slot: Option<Config>, live: multiset<Config>)

  function Written(disk: Option<Persisted>, p: Persisted, ok: bool): Option<Persisted> {
    if ok then Some(p) else disk
  }

  function AfterStart(c: Core, instances: seq<Instance>, startOk: bool, writeOk: bool): Core {
    var alerting := AlertingOn(c.disk);
    var cfg := Config(instances, alerting);
    if c.slot.Some? || !startOk then c
    else Core(Written(c.disk, Persisted(true, instances, alerting), writeOk), Some(cfg), Joined(c.live, Some(cfg)))
  }

  function AfterStop(c: Core, writeOk: bool): Core {
    Core(Written(c.disk, Persisted(false, InstancesOn(c.disk), AlertingOn(c.disk)), writeOk), None,
         Gone(c.live, c.slot))
  }

  function AfterSetAlerts(c: Core, alerting: Alerting, startOk: bool, writeOk: bool): Core {
    var cfg := Config(InstancesOn(c.disk), alerting);
    var c1 := c.(disk := Written(c.disk, Persisted(AutostartOn(c.disk), InstancesOn(c.disk), alerting), writeOk));
    if c.slot == None then c1
    else
      var c2 := c1.(slot := None, live := Gone(c.live, c.slot));
      if startOk then c2.(slot := Some(cfg), live := Joined(c2.live, Some(cfg))) else c2
  }

  function AfterAutostart(c: Core, startOk: bool): Core {
    match BootConfig(c.disk)
    case None => c
    case Some(cfg) => if c.slot.Some? || !startOk then c else c.(slot := Some(cfg), live := Joined(c.live, Some(cfg)))
  }

  /** The process dies; only the file remains. */
  function AfterCrash(c: Core): Core { Core(c.disk, None, multiset{}) }

  /** The backend process, one handler at a time. Whether the daemon comes up and
      whether a write reaches the disk are outcomes given from outside. */
  class Backend {
    var disk: Option<Persisted>
    var slot: Option<Config>
    var live: multiset<Config>

    function State(): Core
      reads this
    {
      Core(disk, slot, live)
    }

    constructor (d: Option<Persisted>)
      ensures State() == Core(d, None, multiset{})
    {
      disk, slot, live := d, None, multiset{};
    }

    method Launch(cfg: Config, ok: bool) returns (daemon: Option<Config>)
      modifies this`live
      ensures daemon == if ok then Some(cfg) else None
      ensures live == if ok then Joined(old(live), daemon) else old(live)
    {
      hide Joined, Gone, Bag;
      if ok {
        live := Joined(live, Some(cfg));
        return Some(cfg);
      }
      return None;
    }

    method Write(p: Persisted, ok: bool)
      modifies this`disk
      ensures disk == Written(old(disk), p, ok)
    {
      if ok {
        disk := Some(p);
      }
    }

    method Start(instances: seq<Instance>, startOk: bool, writeOk: bool) returns (alreadyRunning: bool)
      modifies this
      ensures State() == AfterStart(old(State()), instances, startOk, writeOk)
      ensures alreadyRunning == old(slot).Some?
      // A daemon that runs, or one that does not come up, leaves everything as it was.
      ensures old(slot).Some? || !startOk ==> State() == old(State())
      // Otherwise it runs the given instances with the alerting on file, and is recorded so.
      ensures old(slot) == None && startOk ==>
                && slot.Some? && slot.value.instances == instances
                && slot.value.alerting == (if old(disk) == None then Default else old(disk).value.alerting)
                && live == old(live) + multiset{slot.value}
                && disk == if writeOk then Some(Persisted(true, instances, slot.value.alerting)) else old(disk)
    {
      hide Gone;
      if slot.Some? {
        return true;
      }
      var alerting := AlertingOn(disk);
      var daemon := Launch(Config(instances, alerting), startOk);
      if daemon.Some? {
        slot := daemon;
        Write(Persisted(true, instances, alerting), writeOk);
      }
      return false;
    }

    method Stop(writeOk: bool)
      modifies this
      ensures State() == AfterStop(old(State()), writeOk)
      ensures slot == None
      ensures live == if old(slot) == None then old(live) else old(live) - multiset{old(slot).value}
      ensures !writeOk ==> disk == old(disk)
      ensures writeOk ==>
                && disk.Some? && !disk.value.autostart
                && disk.value.instances == (if old(disk) == None then [] else old(disk).value.instances)
                && disk.value.alerting == (if old(disk) == None then Default else old(disk).value.alerting)
    {
      var taken := slot;
      slot := None;
      if taken.Some? {
        live := Gone(live, taken);
      }
      NothingGone(old(live));
      var prior := disk;
      Write(Persisted(false, InstancesOn(prior), AlertingOn(prior)), writeOk);
    }

    method SetAlertConfig(alerting: Alerting, startOk: bool, writeOk: bool) returns (reloaded: bool)
      modifies this
      ensures State() == AfterSetAlerts(old(State()), alerting, startOk, writeOk)
      ensures reloaded == (old(slot).Some? && startOk)
      ensures !writeOk ==> disk == old(disk)
      ensures writeOk ==>
                && disk.Some? && disk.value.alerting == alerting
                && disk.value.autostart == (old(disk).Some? && old(disk).value.autostart)
                && disk.value.instances == (if old(disk) == None then [] else old(disk).value.instances)
      // An idle daemon stays idle; one that runs is replaced, if the new one comes up.
      ensures old(slot) == None ==> slot == None && live == old(live)
      ensures old(slot).Some? && !startOk ==> slot == None && live == old(live) - multiset{old(slot).value}
      ensures old(slot).Some? && startOk ==>
                && slot.Some? && slot.value.alerting == alerting
                && slot.value.instances == (if old(disk) == None then [] else old(disk).value.instances)
                && live == old(live) - multiset{old(slot).value} + multiset{slot.value}
    {
      var prior := disk;
      Write(Persisted(AutostartOn(prior), InstancesOn(prior), alerting), writeOk);
      reloaded := false;
      if slot.Some? {
        var taken := slot;
        slot := None;
        live := Gone(live, taken);
        var daemon := Launch(Config(InstancesOn(prior), alerting), startOk);
        if daemon.Some? {
          slot := daemon;
          reloaded := true;
        }
      }
    }

    method AutostartFromDisk(startOk: bool)
      modifies this
      ensures State() == AfterAutostart(old(State()), startOk)
      ensures disk == old(disk)
      ensures slot != old(slot) <==>
                && old(slot) == None && startOk
                && old(disk).Some? && old(disk).value.autostart && old(disk).value.instances != []
      ensures slot == old(slot) ==> live == old(live)
      ensures slot != old(slot) ==>
                && slot.Some? && slot.value.instances == old(disk).value.instances
                && slot.value.alerting == old(disk).value.alerting && live == old(live) + multiset{slot.value}
    {
      if disk == None {
        return;
      }
      var p := disk.value;
      if !p.autostart || p.instances == [] {
        return;
      }
      if slot.Some? {
        return;
      }
      slot := Launch(Config(p.instances, p.alerting), startOk);
    }
  }

  // ---- whole-handler runs ----------------------------------------------------------------------

  datatype Op =
    | StartOp(instances: seq<Instance>, startOk: bool, writeOk: bool)
    | StopOp(writeOk: bool)
    | SetAlertsOp(alerting: Alerting, startOk: bool, writeOk: bool)
    | RebootOp(startOk: bool)

  function Apply(c: Core, op: Op): Core {
    match op
    case StartOp(instances, startOk, writeOk) => AfterStart(c, instances, startOk, writeOk)
    case StopOp(writeOk) => AfterStop(c, writeOk)
    case SetAlertsOp(alerting, startOk, writeOk) => AfterSetAlerts(c, alerting, startOk, writeOk)
    case RebootOp(startOk) => AfterAutostart(AfterCrash(c), startOk)
  }

  function ApplyAll(c: Core, ops: seq<Op>): Core
    decreases |ops|
  {
    if ops == [] then c else ApplyAll(Apply(c, ops[0]), ops[1..])
  }

  predicate Writes(op: Op) {
    match op
    case StartOp(_, _, writeOk) => writeOk
    case StopOp(writeOk) => writeOk
    case SetAlertsOp(_, _, writeOk) => writeOk
    case RebootOp(_) => true
  }

  /** A running daemon is what the file says, with autostart set. */
  predicate OnRecord(c: Core) {
    c.slot.Some? ==> c.disk == Some(Persisted(true, c.slot.value.instances, c.slot.value.alerting))
  }

  /** The slot holds the one live daemon. */
  predicate Accounted(c: Core) { c.live == Bag(c.slot) }

  lemma OpKeepsRecord(c: Core, op: Op)
    requires OnRecord(c) && Accounted(c) && Writes(op)
    ensures OnRecord(Apply(c, op)) && Accounted(Apply(c, op))
  {
    hide Bag, Joined, Gone;
    BagFacts(c.slot);
    BagFacts(Apply(c, op).slot);
  }

  /** In every run of whole handlers and reboots whose writes succeed, a running
      daemon is on record, and it is the only one. */
  lemma {:induction false} RunsKeepRecord(c: Core, ops: seq<Op>)
    requires OnRecord(c) && Accounted(c) && forall op :: op in ops ==> Writes(op)
    ensures OnRecord(ApplyAll(c, ops)) && Accounted(ApplyAll(c, ops))
    decreases |ops|
  {
    hide OnRecord, Accounted, Apply, Writes;
    if ops != [] {
      assert ops[0] in ops && forall op :: op in ops[1..] ==> op in ops;
      OpKeepsRecord(c, ops[0]);
      RunsKeepRecord(Apply(c, ops[0]), ops[1..]);
    }
  }

  /** After such a run, a crash and a reboot bring the same configuration back
      if and only if it has an instance and the daemon comes up. */
  lemma RebootRestores(disk: Option<Persisted>, ops: seq<Op>, startOk: bool)
    requires forall op :: op in ops ==> Writes(op)
    ensures var c := ApplyAll(Core(disk, None, multiset{}), ops);
            c.slot.Some? ==>
              (AfterAutostart(AfterCrash(c), startOk).slot == c.slot <==> c.slot.value.instances != [] && startOk)
  {
    hide ApplyAll, Writes, Bag, Joined, Gone;
    BagFacts(None);
    RunsKeepRecord(Core(disk, None, multiset{}), ops);
  }

  predicate KeepsAlerts(op: Op) { !op.SetAlertsOp? }

  /** The last alert configuration saved is never lost: whatever is started,
      stopped or rebooted afterwards, and whatever fails, the file still has it. */
  lemma {:induction false} AlertingSurvives(c: Core, ops: seq<Op>)
    requires forall op :: op in ops ==> KeepsAlerts(op)
    ensures AlertingOn(ApplyAll(c, ops).disk) == AlertingOn(c.disk)
    decreases |ops|
  {
    hide Bag, Joined, Gone;
    if ops != [] {
      assert ops[0] in ops && KeepsAlerts(ops[0]) && forall op :: op in ops[1..] ==> op in ops;
      AlertingSurvives(Apply(c, ops[0]), ops[1..]);
    }
  }

  /** So the next daemon that is started runs with it. */
  lemma RestartUsesLastAlerting(c: Core, alerting: Alerting, ops: seq<Op>, instances: seq<Instance>, ok: bool)
    requires forall op :: op in ops ==> KeepsAlerts(op)
    ensures var stopped := AfterStop(ApplyAll(AfterSetAlerts(c, alerting, ok, true), ops), true);
            AfterStart(stopped, instances, true, true).slot == Some(Config(instances, alerting))
  {
    hide ApplyAll, KeepsAlerts, Bag, Joined, Gone;
    var c1 := AfterSetAlerts(c, alerting, ok, true);
    AlertingSurvives(c1, ops);
    assert AlertingOn(c1.disk) == alerting;
  }
}
