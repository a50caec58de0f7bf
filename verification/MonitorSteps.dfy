/**
 The monitor's handlers interleaved: each handler is a task that advances one
 step at a time, where a step takes the lock, touches the file, or brings a
 daemon up or down.
 */
module MonitorSteps {
  import opened Wrappers
  import opened Monitor

  // ---- tasks -----------------------------------------------------------------------------------

  datatype Request =
    | StartRequest(instances: seq<Instance>)
    | StopRequest
    | SetAlertsRequest(alerting: Alerting)
    | AutostartRequest

  /** Where a handler stands, with its local variables. */
  datatype Task =
    | StartWaits(instances: seq<Instance>)
    | StartLocked(instances: seq<Instance>)
    | StartReady(cfg: Config)
    | StartHolds(cfg: Config)                  // a live daemon not yet in the slot
    | StartStored(cfg: Config)
    | StopWaits
    | StopLocked
    | StopHolds(taken: Config)                   // a live daemon taken from the slot
    | StopReads
    | StopWrites(prior: Option<Persisted>)
    | AlertsReads(alerting: Alerting)
    | AlertsWrites(alerting: Alerting, prior: Option<Persisted>)
    | AlertsWaits(cfg: Config)
    | AlertsLocked(cfg: Config)
    | AlertsHoldsOld(cfg: Config, taken: Config)
    | AlertsReady(cfg: Config)
    | AlertsHolds(cfg: Config)
    | BootReads
    | BootWaits(cfg: Config)
    | BootLocked(cfg: Config)
    | BootHolds(cfg: Config)

  predicate HoldsLock(t: Task) {
    match t
    case StartWaits(_) => false
    case StopWaits => false
    case AlertsReads(_) => false
    case AlertsWrites(_, _) => false
    case AlertsWaits(_) => false
    case BootReads => false
    case BootWaits(_) => false
    case _ => true
  }

  /** The live daemon a handler has in hand. */
  function InHand(t: Task): Option<Config> {
    match t
    case StartHolds(cfg) => Some(cfg)
    case StopHolds(taken) => Some(taken)
    case AlertsHoldsOld(_, taken) => Some(taken)
    case AlertsHolds(cfg) => Some(cfg)
    case BootHolds(cfg) => Some(cfg)
    case _ => None
  }

  /** Tasks that have not looked at the slot since taking the lock, or have
      stored a daemon in it. */
  predicate MayFindSlotFull(t: Task) {
    t.StartLocked? || t.StartStored? || t.StopLocked? || t.AlertsLocked? || t.BootLocked?
  }

  function FirstStep(r: Request): Task {
    match r
    case StartRequest(instances) => StartWaits(instances)
    case StopRequest => StopWaits
    case SetAlertsRequest(alerting) => AlertsReads(alerting)
    case AutostartRequest => BootReads
  }

  // ---- the process -------------------------------------------------------------------------------

  datatype Process = Process(core: Core, owner: Option<nat>, tasks: map<nat, Task>)

  datatype Action =
    | Arrive(id: nat, request: Request)
    | Move(id: nat, startOk: bool, writeOk: bool)
    | Crash

  function Goto(p: Process, id: nat, t: Task): Process { p.(tasks := p.tasks[id := t]) }

  function Lock(p: Process, id: nat, t: Task): Process {
    if p.owner.Some? then p else p.(owner := Some(id), tasks := p.tasks[id := t])
  }

  /** The handler returns; its guard, if any, is dropped. */
  function Return(p: Process, id: nat): Process {
    p.(tasks := p.tasks - {id}, owner := if p.owner == Some(id) then None else p.owner)
  }

  function WithCore(p: Process, c: Core): Process { p.(core := c) }

  function Step(p: Process, id: nat, t: Task, startOk: bool, writeOk: bool): Process {
    var c := p.core;
    match t
    case StartWaits(instances) => Lock(p, id, StartLocked(instances))
    case StartLocked(instances) =>
      if c.slot.Some? then Return(p, id) else Goto(p, id, StartReady(Config(instances, AlertingOn(c.disk))))
    case StartReady(cfg) =>
      if startOk then Goto(WithCore(p, c.(live := Joined(c.live, Some(cfg)))), id, StartHolds(cfg)) else Return(p, id)
    case StartHolds(cfg) => Goto(WithCore(p, c.(slot := Some(cfg))), id, StartStored(cfg))
    case StartStored(cfg) =>
      Return(WithCore(p, c.(disk := Written(c.disk, Persisted(true, cfg.instances, cfg.alerting), writeOk))), id)
    case StopWaits => Lock(p, id, StopLocked)
    case StopLocked =>
      (match c.slot
       case None => Goto(p, id, StopReads)
       case Some(taken) => Goto(WithCore(p, c.(slot := None)), id, StopHolds(taken)))
    case StopHolds(taken) => Goto(WithCore(p, c.(live := Gone(c.live, Some(taken)))), id, StopReads)
    case StopReads => Goto(p, id, StopWrites(c.disk))
    case StopWrites(prior) =>
      Return(WithCore(p, c.(disk := Written(c.disk, Persisted(false, InstancesOn(prior), AlertingOn(prior)), writeOk))),
             id)
    case AlertsReads(alerting) => Goto(p, id, AlertsWrites(alerting, c.disk))
    case AlertsWrites(alerting, prior) =>
      Goto(WithCore(p, c.(disk := Written(c.disk, Persisted(AutostartOn(prior), InstancesOn(prior), alerting),
                                          writeOk))),
           id, AlertsWaits(Config(InstancesOn(prior), alerting)))
    case AlertsWaits(cfg) => Lock(p, id, AlertsLocked(cfg))
    case AlertsLocked(cfg) =>
      (match c.slot
       case None => Return(p, id)
       case Some(taken) => Goto(WithCore(p, c.(slot := None)), id, AlertsHoldsOld(cfg, taken)))
    case AlertsHoldsOld(cfg, taken) => Goto(WithCore(p, c.(live := Gone(c.live, Some(taken)))), id, AlertsReady(cfg))
    case AlertsReady(cfg) =>
      if startOk then Goto(WithCore(p, c.(live := Joined(c.live, Some(cfg)))), id, AlertsHolds(cfg)) else Return(p, id)
    case AlertsHolds(cfg) => Return(WithCore(p, c.(slot := Some(cfg))), id)
    case BootReads =>
      (match BootConfig(c.disk) case None => Return(p, id) case Some(cfg) => Goto(p, id, BootWaits(cfg)))
    case BootWaits(cfg) => Lock(p, id, BootLocked(cfg))
    case BootLocked(cfg) =>
      if c.slot.Some? || !startOk then Return(p, id)
      else Goto(WithCore(p, c.(live := Joined(c.live, Some(cfg)))), id, BootHolds(cfg))
    case BootHolds(cfg) => Return(WithCore(p, c.(slot := Some(cfg))), id)
  }

  function Next(p: Process, a: Action): Process {
    match a
    case Arrive(id, request) => if id in p.tasks then p else Goto(p, id, FirstStep(request))
    case Move(id, startOk, writeOk) => if id in p.tasks then Step(p, id, p.tasks[id], startOk, writeOk) else p
    case Crash => Process(AfterCrash(p.core), None, map[])
  }

  function Run(p: Process, actions: seq<Action>): Process
    decreases |actions|
  {
    if actions == [] then p else Run(Next(p, actions[0]), actions[1..])
  }

  /** A process that has just started, over whatever file there is. */
  function Booted(disk: Option<Persisted>): Process { Process(Core(disk, None, multiset{}), None, map[]) }

  // ---- at most one daemon ------------------------------------------------------------------------

  /** The daemon the lock owner has in hand. */
  function OwnersHand(p: Process): Option<Config> {
    if p.owner.Some? && p.owner.value in p.tasks then InHand(p.tasks[p.owner.value]) else None
  }

  /** Only the lock owner is past the lock. */
  ghost predicate Exclusive(p: Process) {
    && (p.owner.Some? ==> p.owner.value in p.tasks)
    && forall id :: id in p.tasks ==> (HoldsLock(p.tasks[id]) <==> p.owner == Some(id))
  }

  predicate SlotKnown(p: Process) {
    p.owner.Some? && p.owner.value in p.tasks && !MayFindSlotFull(p.tasks[p.owner.value]) ==> p.core.slot == None
  }

  predicate NoneLeaked(p: Process) { p.core.live == Joined(Bag(p.core.slot), OwnersHand(p)) }

  /** Every live daemon is in the slot or in the owner's hand, never in both. */
  ghost predicate Owned(p: Process) { Exclusive(p) && SlotKnown(p) && NoneLeaked(p) }

  lemma OwnedIsAtMostOne(p: Process)
    requires Owned(p)
    ensures |p.core.live| <= 1
  {
    hide Exclusive;
    BagFacts(p.core.slot);
    BagFacts(OwnersHand(p));
    if OwnersHand(p) == None {
      assert p.core.live == Bag(p.core.slot);
    } else {
      assert p.core.slot == None;
    }
  }

  lemma MoveExcludes(p: Process, id: nat, startOk: bool, writeOk: bool)
    requires Exclusive(p) && id in p.tasks
    ensures Exclusive(Step(p, id, p.tasks[id], startOk, writeOk))
  {
    hide Joined, Gone, Written, BootConfig;
  }

  lemma Handed(o: Option<Config>)
    ensures Joined(Bag(o), None) == Bag(o) && Joined(Bag(None), o) == Bag(o) && Gone(Bag(o), o) == Bag(None)
  {
  }

  /** A handler that waits for the lock, or takes it, leaves daemons alone. */
  lemma WaitingKeepsOwned(p: Process, id: nat, startOk: bool, writeOk: bool)
    requires Exclusive(p) && SlotKnown(p) && NoneLeaked(p) && id in p.tasks && !HoldsLock(p.tasks[id])
    ensures var q := Step(p, id, p.tasks[id], startOk, writeOk); SlotKnown(q) && NoneLeaked(q)
  {
    hide Joined, Gone, Bag, Written, BootConfig;
  }

  lemma StartKeepsOwned(p: Process, id: nat, startOk: bool, writeOk: bool)
    requires id in p.tasks && p.owner == Some(id) && SlotKnown(p) && NoneLeaked(p)
    requires var t := p.tasks[id]; t.StartLocked? || t.StartReady? || t.StartHolds? || t.StartStored?
    ensures var q := Step(p, id, p.tasks[id], startOk, writeOk); SlotKnown(q) && NoneLeaked(q)
  {
    hide Joined, Gone, Bag, Written, BootConfig;
    Handed(p.core.slot);
    Handed(OwnersHand(p));
  }

  lemma StopKeepsOwned(p: Process, id: nat, startOk: bool, writeOk: bool)
    requires id in p.tasks && p.owner == Some(id) && SlotKnown(p) && NoneLeaked(p)
    requires var t := p.tasks[id]; t.StopLocked? || t.StopHolds? || t.StopReads? || t.StopWrites?
    ensures var q := Step(p, id, p.tasks[id], startOk, writeOk); SlotKnown(q) && NoneLeaked(q)
  {
    hide Joined, Gone, Bag, Written, BootConfig;
    Handed(p.core.slot);
    Handed(OwnersHand(p));
  }

  lemma AlertsKeepsOwned(p: Process, id: nat, startOk: bool, writeOk: bool)
    requires id in p.tasks && p.owner == Some(id) && SlotKnown(p) && NoneLeaked(p)
    requires var t := p.tasks[id]; t.AlertsLocked? || t.AlertsHoldsOld? || t.AlertsReady? || t.AlertsHolds?
    ensures var q := Step(p, id, p.tasks[id], startOk, writeOk); SlotKnown(q) && NoneLeaked(q)
  {
    hide Joined, Gone, Bag, Written, BootConfig;
    Handed(p.core.slot);
    Handed(OwnersHand(p));
  }

  lemma BootKeepsOwned(p: Process, id: nat, startOk: bool, writeOk: bool)
    requires id in p.tasks && p.owner == Some(id) && SlotKnown(p) && NoneLeaked(p)
    requires var t := p.tasks[id]; t.BootLocked? || t.BootHolds?
    ensures var q := Step(p, id, p.tasks[id], startOk, writeOk); SlotKnown(q) && NoneLeaked(q)
  {
    hide Joined, Gone, Bag, Written, BootConfig;
    Handed(p.core.slot);
    Handed(OwnersHand(p));
  }

  lemma OwnerHoldsLock(p: Process, id: nat)
    requires Exclusive(p) && id in p.tasks
    ensures HoldsLock(p.tasks[id]) <==> p.owner == Some(id)
  {
  }

  lemma MoveKeepsOwned(p: Process, id: nat, startOk: bool, writeOk: bool)
    requires Owned(p) && id in p.tasks
    ensures Owned(Step(p, id, p.tasks[id], startOk, writeOk))
  {
    hide Exclusive, SlotKnown, NoneLeaked, Step;
    MoveExcludes(p, id, startOk, writeOk);
    OwnerHoldsLock(p, id);
    var t := p.tasks[id];
    if !HoldsLock(t) {
      WaitingKeepsOwned(p, id, startOk, writeOk);
    } else if t.StartLocked? || t.StartReady? || t.StartHolds? || t.StartStored? {
      StartKeepsOwned(p, id, startOk, writeOk);
    } else if t.StopLocked? || t.StopHolds? || t.StopReads? || t.StopWrites? {
      StopKeepsOwned(p, id, startOk, writeOk);
    } else if t.BootLocked? || t.BootHolds? {
      BootKeepsOwned(p, id, startOk, writeOk);
    } else {
      AlertsKeepsOwned(p, id, startOk, writeOk);
    }
  }

  lemma ArriveKeepsOwned(p: Process, id: nat, request: Request)
    requires Owned(p)
    ensures Owned(Next(p, Arrive(id, request)))
  {
    hide Joined, Bag;
  }

  lemma BootedIsOwned(disk: Option<Persisted>)
    ensures Owned(Booted(disk))
  {
    BagFacts(None);
  }

  lemma {:induction false} RunKeepsOwned(p: Process, actions: seq<Action>)
    requires Owned(p)
    ensures Owned(Run(p, actions))
    decreases |actions|
  {
    hide Owned, Step;
    if actions != [] {
      match actions[0] {
        case Arrive(id, request) => ArriveKeepsOwned(p, id, request);
        case Move(id, startOk, writeOk) =>
          if id in p.tasks {
            MoveKeepsOwned(p, id, startOk, writeOk);
          }
        case Crash => BootedIsOwned(p.core.disk);
      }
      RunKeepsOwned(Next(p, actions[0]), actions[1..]);
    }
  }

  /** In every interleaving of any number of handlers, whatever starts and
      writes fail and wherever the process crashes, at most one daemon is alive,
      and it is in the slot or in the hands of the handler that has the lock. */
  lemma AtMostOneDaemon(disk: Option<Persisted>, actions: seq<Action>)
    ensures var p := Run(Booted(disk), actions);
            && |p.core.live| <= 1
            && p.core.live == Joined(Bag(p.core.slot), OwnersHand(p))
            && (p.owner == None ==> p.core.live == Bag(p.core.slot))
  {
    hide Run, Exclusive, SlotKnown;
    BootedIsOwned(disk);
    RunKeepsOwned(Booted(disk), actions);
    var p := Run(Booted(disk), actions);
    OwnedIsAtMostOne(p);
    Handed(p.core.slot);
  }

  // ---- a handler left alone ------------------------------------------------------------------------

  function Whole(c: Core, request: Request, startOk: bool, writeOk: bool): Core {
    match request
    case StartRequest(instances) => AfterStart(c, instances, startOk, writeOk)
    case StopRequest => AfterStop(c, writeOk)
    case SetAlertsRequest(alerting) => AfterSetAlerts(c, alerting, startOk, writeOk)
    case AutostartRequest => AfterAutostart(c, startOk)
  }

  /** Handler `id` advanced `n` times, or until it returns. */
  function Moves(p: Process, id: nat, startOk: bool, writeOk: bool, n: nat): Process
    decreases n
  {
    if n == 0 || id !in p.tasks then p
    else Moves(Step(p, id, p.tasks[id], startOk, writeOk), id, startOk, writeOk, n - 1)
  }

  /** Process `p` with handler `id` at `t` and the lock in its hands. */
  function Inside(p: Process, c: Core, id: nat, t: Task): Process { Process(c, Some(id), p.tasks[id := t]) }

  lemma Inwards(p: Process, c: Core, id: nat, t: Task, startOk: bool, writeOk: bool, c': Core, t': Task, n: nat)
    requires Step(Inside(p, c, id, t), id, t, startOk, writeOk) == Goto(WithCore(Inside(p, c, id, t), c'), id, t')
    ensures Moves(Inside(p, c, id, t), id, startOk, writeOk, n + 1) ==
            Moves(Inside(p, c', id, t'), id, startOk, writeOk, n)
  {
    hide Step;
    assert p.tasks[id := t][id := t'] == p.tasks[id := t'];
  }

  lemma Outwards(p: Process, c: Core, id: nat, t: Task, startOk: bool, writeOk: bool, c': Core, n: nat)
    requires p.owner == None && id !in p.tasks
    requires Step(Inside(p, c, id, t), id, t, startOk, writeOk) == Return(WithCore(Inside(p, c, id, t), c'), id)
    ensures Moves(Inside(p, c, id, t), id, startOk, writeOk, n + 1) == WithCore(p, c')
  {
    hide Step;
    assert p.tasks[id := t] - {id} == p.tasks;
  }

  lemma StartAlone(p: Process, id: nat, instances: seq<Instance>, startOk: bool, writeOk: bool)
    requires p.owner == None && id !in p.tasks
    ensures Moves(Inside(p, p.core, id, StartLocked(instances)), id, startOk, writeOk, 4) ==
            WithCore(p, AfterStart(p.core, instances, startOk, writeOk))
  {
    hide Moves, Joined, Bag, Gone, Written;
    var c, cfg := p.core, Config(instances, AlertingOn(p.core.disk));
    if c.slot.Some? {
      Outwards(p, c, id, StartLocked(instances), startOk, writeOk, c, 3);
    } else {
      Inwards(p, c, id, StartLocked(instances), startOk, writeOk, c, StartReady(cfg), 3);
      if !startOk {
        Outwards(p, c, id, StartReady(cfg), startOk, writeOk, c, 2);
      } else {
        var c1 := c.(live := Joined(c.live, Some(cfg)));
        var c2 := c1.(slot := Some(cfg));
        Inwards(p, c, id, StartReady(cfg), startOk, writeOk, c1, StartHolds(cfg), 2);
        Inwards(p, c1, id, StartHolds(cfg), startOk, writeOk, c2, StartStored(cfg), 1);
        Outwards(p, c2, id, StartStored(cfg), startOk, writeOk, AfterStart(c, instances, startOk, writeOk), 0);
      }
    }
  }

  lemma StopAlone(p: Process, id: nat, startOk: bool, writeOk: bool)
    requires p.owner == None && id !in p.tasks
    ensures Moves(Inside(p, p.core, id, StopLocked), id, startOk, writeOk, 4) ==
            WithCore(p, AfterStop(p.core, writeOk))
  {
    hide Moves, Joined, Bag, Gone, Written;
    var c := p.core;
    var c1 := c.(slot := None);
    var c2 := c1.(live := Gone(c.live, c.slot));
    NothingGone(c.live);
    match c.slot {
      case None =>
        Inwards(p, c, id, StopLocked, startOk, writeOk, c2, StopReads, 3);
        Inwards(p, c2, id, StopReads, startOk, writeOk, c2, StopWrites(c.disk), 2);
        Outwards(p, c2, id, StopWrites(c.disk), startOk, writeOk, AfterStop(c, writeOk), 1);
      case Some(taken) =>
        Inwards(p, c, id, StopLocked, startOk, writeOk, c1, StopHolds(taken), 3);
        Inwards(p, c1, id, StopHolds(taken), startOk, writeOk, c2, StopReads, 2);
        Inwards(p, c2, id, StopReads, startOk, writeOk, c2, StopWrites(c.disk), 1);
        Outwards(p, c2, id, StopWrites(c.disk), startOk, writeOk, AfterStop(c, writeOk), 0);
    }
  }

  lemma RelaunchAlone(p: Process, c: Core, id: nat, cfg: Config, startOk: bool, writeOk: bool)
    requires p.owner == None && id !in p.tasks
    ensures Moves(Inside(p, c, id, AlertsReady(cfg)), id, startOk, writeOk, 2) ==
            WithCore(p, if startOk then c.(slot := Some(cfg), live := Joined(c.live, Some(cfg))) else c)
  {
    hide Moves, Joined;
    if !startOk {
      Outwards(p, c, id, AlertsReady(cfg), startOk, writeOk, c, 1);
    } else {
      var c1 := c.(live := Joined(c.live, Some(cfg)));
      Inwards(p, c, id, AlertsReady(cfg), startOk, writeOk, c1, AlertsHolds(cfg), 1);
      Outwards(p, c1, id, AlertsHolds(cfg), startOk, writeOk, c1.(slot := Some(cfg)), 0);
    }
  }

  /** From the lock on, `c` being the state after the write. */
  lemma ReloadAlone(p: Process, c: Core, id: nat, cfg: Config, startOk: bool, writeOk: bool)
    requires p.owner == None && id !in p.tasks
    ensures Moves(Inside(p, c, id, AlertsLocked(cfg)), id, startOk, writeOk, 4) ==
            WithCore(p, if c.slot == None then c
                        else if startOk then c.(slot := Some(cfg), live := Joined(Gone(c.live, c.slot), Some(cfg)))
                        else c.(slot := None, live := Gone(c.live, c.slot)))
  {
    hide Moves, Joined, Gone;
    match c.slot {
      case None => Outwards(p, c, id, AlertsLocked(cfg), startOk, writeOk, c, 3);
      case Some(taken) =>
        var c1 := c.(slot := None);
        var c2 := c1.(live := Gone(c.live, c.slot));
        Inwards(p, c, id, AlertsLocked(cfg), startOk, writeOk, c1, AlertsHoldsOld(cfg, taken), 3);
        Inwards(p, c1, id, AlertsHoldsOld(cfg, taken), startOk, writeOk, c2, AlertsReady(cfg), 2);
        RelaunchAlone(p, c2, id, cfg, startOk, writeOk);
    }
  }

  lemma BootAlone(p: Process, id: nat, cfg: Config, startOk: bool, writeOk: bool)
    requires p.owner == None && id !in p.tasks
    ensures Moves(Inside(p, p.core, id, BootLocked(cfg)), id, startOk, writeOk, 2) ==
            WithCore(p, if p.core.slot.Some? || !startOk then p.core
                        else p.core.(slot := Some(cfg), live := Joined(p.core.live, Some(cfg))))
  {
    hide Moves, Joined, Bag;
    var c := p.core;
    if c.slot.Some? || !startOk {
      Outwards(p, c, id, BootLocked(cfg), startOk, writeOk, c, 1);
    } else {
      var c1 := c.(live := Joined(c.live, Some(cfg)));
      Inwards(p, c, id, BootLocked(cfg), startOk, writeOk, c1, BootHolds(cfg), 1);
      Outwards(p, c1, id, BootHolds(cfg), startOk, writeOk, c1.(slot := Some(cfg)), 0);
    }
  }

  /** Process `p` with handler `id` at `t`, outside the lock. */
  function Beside(p: Process, c: Core, id: nat, t: Task): Process { Process(c, p.owner, p.tasks[id := t]) }

  lemma Enters(p: Process, c: Core, id: nat, t: Task, startOk: bool, writeOk: bool, t': Task, n: nat)
    requires p.owner == None
    requires Step(Beside(p, c, id, t), id, t, startOk, writeOk) == Lock(Beside(p, c, id, t), id, t')
    ensures Moves(Beside(p, c, id, t), id, startOk, writeOk, n + 1) ==
            Moves(Inside(p, c, id, t'), id, startOk, writeOk, n)
  {
    hide Step;
    assert p.tasks[id := t][id := t'] == p.tasks[id := t'];
  }

  lemma Onwards(p: Process, c: Core, id: nat, t: Task, startOk: bool, writeOk: bool, c': Core, t': Task, n: nat)
    requires Step(Beside(p, c, id, t), id, t, startOk, writeOk) == Goto(WithCore(Beside(p, c, id, t), c'), id, t')
    ensures Moves(Beside(p, c, id, t), id, startOk, writeOk, n + 1) ==
            Moves(Beside(p, c', id, t'), id, startOk, writeOk, n)
  {
    hide Step;
    assert p.tasks[id := t][id := t'] == p.tasks[id := t'];
  }

  lemma AlertsAlone(p: Process, id: nat, alerting: Alerting, startOk: bool, writeOk: bool)
    requires p.owner == None && id !in p.tasks
    ensures Moves(Beside(p, p.core, id, AlertsReads(alerting)), id, startOk, writeOk, 7) ==
            WithCore(p, AfterSetAlerts(p.core, alerting, startOk, writeOk))
  {
    hide Moves, Joined, Bag, Gone, Written, Inside;
    var c, prior := p.core, p.core.disk;
    var c1 := c.(disk := Written(c.disk, Persisted(AutostartOn(prior), InstancesOn(prior), alerting), writeOk));
    var cfg := Config(InstancesOn(prior), alerting);
    Onwards(p, c, id, AlertsReads(alerting), startOk, writeOk, c, AlertsWrites(alerting, prior), 6);
    Onwards(p, c, id, AlertsWrites(alerting, prior), startOk, writeOk, c1, AlertsWaits(cfg), 5);
    Enters(p, c1, id, AlertsWaits(cfg), startOk, writeOk, AlertsLocked(cfg), 4);
    ReloadAlone(p, c1, id, cfg, startOk, writeOk);
  }

  lemma AutostartAlone(p: Process, id: nat, startOk: bool, writeOk: bool)
    requires p.owner == None && id !in p.tasks
    ensures Moves(Beside(p, p.core, id, BootReads), id, startOk, writeOk, 4) ==
            WithCore(p, AfterAutostart(p.core, startOk))
  {
    hide Joined, Bag, BootConfig, Inside;
    match BootConfig(p.core.disk) {
      case None =>
        assert p.tasks[id := BootReads] - {id} == p.tasks;
      case Some(cfg) =>
        hide Moves;
        Onwards(p, p.core, id, BootReads, startOk, writeOk, p.core, BootWaits(cfg), 3);
        Enters(p, p.core, id, BootWaits(cfg), startOk, writeOk, BootLocked(cfg), 2);
        BootAlone(p, id, cfg, startOk, writeOk);
    }
  }

  /** How many steps a handler takes at most. */
  function Steps(request: Request): nat {
    match request
    case StartRequest(_) => 5
    case StopRequest => 5
    case SetAlertsRequest(_) => 7
    case AutostartRequest => 4
  }

  /** A handler that finds the lock free and is left alone returns, and does what
      the whole handler does. */
  lemma AloneIsWhole(p: Process, id: nat, request: Request, startOk: bool, writeOk: bool)
    requires p.owner == None && id !in p.tasks
    ensures Moves(Next(p, Arrive(id, request)), id, startOk, writeOk, Steps(request)) ==
            WithCore(p, Whole(p.core, request, startOk, writeOk))
  {
    hide Moves, AfterStart, AfterStop, AfterSetAlerts, AfterAutostart, Inside;
    assert Next(p, Arrive(id, request)) == Beside(p, p.core, id, FirstStep(request));
    match request
    case StartRequest(instances) =>
      Enters(p, p.core, id, StartWaits(instances), startOk, writeOk, StartLocked(instances), 4);
      StartAlone(p, id, instances, startOk, writeOk);
    case StopRequest =>
      Enters(p, p.core, id, StopWaits, startOk, writeOk, StopLocked, 4);
      StopAlone(p, id, startOk, writeOk);
    case SetAlertsRequest(alerting) => AlertsAlone(p, id, alerting, startOk, writeOk);
    case AutostartRequest => AutostartAlone(p, id, startOk, writeOk);
  }
}
