/**
 A change of the alerting configuration reads and writes the file before it
 takes the lock. Exactly when the reload that follows leaves file and daemon in
 step, exactly when a change after a stop leaves autostart off, and three runs in
 which it does not.
 */
module MonitorReload {
  import opened Wrappers
  import opened Monitor
  import opened MonitorSteps

  /** The running daemon kept its instances, has the new configuration, and is on
      record. */
  predicate Reloaded(c: Core, taken: Config, cfg: Config) {
    OnRecord(c) && c.slot == Some(Config(taken.instances, cfg.alerting))
  }

  /** The file holds what is to be started, with the instances that run. */
  predicate FileAgrees(disk: Option<Persisted>, taken: Config, cfg: Config) {
    disk == Some(Persisted(true, cfg.instances, cfg.alerting)) && cfg.instances == taken.instances
  }

  // ---- among other handlers ----------------------------------------------------------------------

  /** Handler `id` is inside the lock, restarting daemon `taken` as `cfg`. */
  ghost predicate Reloading(p: Process, id: nat, cfg: Config, taken: Config) {
    && Exclusive(p) && p.owner == Some(id) && id in p.tasks
    && match p.tasks[id]
       case AlertsLocked(c) => c == cfg && p.core.slot == Some(taken)
       case AlertsHoldsOld(c, _) => c == cfg && p.core.slot == None
       case AlertsReady(c) => c == cfg && p.core.slot == None
       case AlertsHolds(c) => c == cfg && p.core.slot == None
       case _ => false
  }

  /** Nothing crashes, and daemons of handler `id` come up. */
  predicate Smooth(a: Action, id: nat) {
    match a
    case Arrive(_, _) => true
    case Move(n, startOk, _) => n == id ==> startOk
    case Crash => false
  }

  lemma OthersLeaveReload(p: Process, id: nat, cfg: Config, taken: Config, n: nat, startOk: bool, writeOk: bool)
    requires Reloading(p, id, cfg, taken) && n != id && n in p.tasks
    ensures Reloading(Step(p, n, p.tasks[n], startOk, writeOk), id, cfg, taken)
  {
    hide Joined, Gone, Written, BootConfig, Exclusive;
    MoveExcludes(p, n, startOk, writeOk);
    OwnerHoldsLock(p, n);
  }

  lemma ArrivalsLeaveReload(p: Process, id: nat, cfg: Config, taken: Config, n: nat, request: Request)
    requires Reloading(p, id, cfg, taken)
    ensures Reloading(Next(p, Arrive(n, request)), id, cfg, taken)
  {
  }

  lemma ReloadMoves(p: Process, id: nat, cfg: Config, taken: Config, writeOk: bool)
    requires Reloading(p, id, cfg, taken)
    ensures var q := Step(p, id, p.tasks[id], true, writeOk);
            if id in q.tasks then Reloading(q, id, cfg, taken) else q.owner == None && q.core.slot == Some(cfg)
  {
    hide Joined, Gone, Exclusive;
    MoveExcludes(p, id, true, writeOk);
  }

  /** `actions` end with the return of handler `id`, not before. */
  ghost predicate UntilReturn(p: Process, id: nat, actions: seq<Action>)
    decreases |actions|
  {
    if id !in p.tasks then actions == []
    else actions != [] && Smooth(actions[0], id) && UntilReturn(Next(p, actions[0]), id, actions[1..])
  }

  lemma StillThere(p: Process, id: nat, cfg: Config, taken: Config)
    requires Reloading(p, id, cfg, taken)
    ensures id in p.tasks
  {
  }

  // ---- the file meanwhile ------------------------------------------------------------------------

  /** Another change of the alerting configuration writes the file. */
  predicate WritesFile(p: Process, id: nat, a: Action) {
    a.Move? && a.writeOk && a.id != id && a.id in p.tasks && p.tasks[a.id].AlertsWrites?
  }

  ghost predicate FileLeftAlone(p: Process, id: nat, actions: seq<Action>)
    decreases |actions|
  {
    actions != [] ==> !WritesFile(p, id, actions[0]) && FileLeftAlone(Next(p, actions[0]), id, actions[1..])
  }

  /** Outside the lock nothing but such a write touches the file; inside, the reload
      does not. */
  lemma OthersKeepFile(p: Process, id: nat, cfg: Config, taken: Config, n: nat, startOk: bool, writeOk: bool)
    requires Reloading(p, id, cfg, taken) && n in p.tasks && !WritesFile(p, id, Move(n, startOk, writeOk))
    ensures Step(p, n, p.tasks[n], startOk, writeOk).core.disk == p.core.disk
  {
    hide Joined, Gone, BootConfig, Exclusive;
    OwnerHoldsLock(p, n);
  }

  /** One action of a smooth reload. */
  lemma ReloadActs(p: Process, id: nat, cfg: Config, taken: Config, a: Action)
    requires Reloading(p, id, cfg, taken) && Smooth(a, id)
    ensures id in p.tasks
    ensures var q := Next(p, a);
            && (if id in q.tasks then Reloading(q, id, cfg, taken) else q.owner == None && q.core.slot == Some(cfg))
            && (!WritesFile(p, id, a) ==> q.core.disk == p.core.disk)
  {
    hide Step, Reloading, WritesFile;
    StillThere(p, id, cfg, taken);
    match a {
      case Arrive(n, request) =>
        ArrivalsLeaveReload(p, id, cfg, taken, n, request);
      case Move(n, startOk, writeOk) =>
        if n in p.tasks && !WritesFile(p, id, a) {
          OthersKeepFile(p, id, cfg, taken, n, startOk, writeOk);
        }
        if n == id {
          ReloadMoves(p, id, cfg, taken, writeOk);
        } else if n in p.tasks {
          OthersLeaveReload(p, id, cfg, taken, n, startOk, writeOk);
          StillThere(Next(p, a), id, cfg, taken);
        }
      case Crash =>
    }
  }

  /** Whatever the others do meanwhile, a smooth reload ends with its daemon in the
      slot and the lock free; if no other change writes, the file is as it was. */
  lemma {:induction false} ReloadEnds(p: Process, id: nat, cfg: Config, taken: Config, actions: seq<Action>)
    requires Reloading(p, id, cfg, taken) && UntilReturn(p, id, actions)
    ensures var q := Run(p, actions);
            && q.owner == None && q.core.slot == Some(cfg)
            && (FileLeftAlone(p, id, actions) ==> q.core.disk == p.core.disk)
    decreases |actions|
  {
    hide Next, Reloading, WritesFile;
    StillThere(p, id, cfg, taken);
    ReloadActs(p, id, cfg, taken, actions[0]);
    var q := Next(p, actions[0]);
    RunFirst(p, actions);
    assert UntilReturn(q, id, actions[1..]);
    if id in q.tasks {
      ReloadEnds(q, id, cfg, taken, actions[1..]);
    } else {
      assert actions[1..] == [] && Run(q, []) == q;
    }
  }

  lemma LockTaken(p: Process, id: nat, cfg: Config, taken: Config, startOk: bool, writeOk: bool)
    requires Exclusive(p) && p.owner == None && id in p.tasks && p.tasks[id] == AlertsWaits(cfg)
    requires p.core.slot == Some(taken)
    ensures var q := Next(p, Move(id, startOk, writeOk));
            Reloading(q, id, cfg, taken) && q.core.disk == p.core.disk && q.tasks == p.tasks[id := AlertsLocked(cfg)]
  {
    hide Exclusive;
    MoveExcludes(p, id, startOk, writeOk);
  }

  /** A state the process can reach, in which a change of the alerting configuration,
      its write behind it, finds the lock free and a daemon running. */
  ghost predicate AtTheLock(disk: Option<Persisted>, before: seq<Action>, id: nat, cfg: Config, taken: Config) {
    var p := Run(Booted(disk), before);
    p.owner == None && id in p.tasks && p.tasks[id] == AlertsWaits(cfg) && p.core.slot == Some(taken)
  }

  /** It takes the lock, and `actions` end with its return. */
  ghost predicate Reload(p: Process, id: nat, actions: seq<Action>) {
    actions != [] && actions[0].Move? && actions[0].id == id && UntilReturn(p, id, actions)
  }

  /** Whatever the other handlers do until the change returns, as long as no other
      change writes the file: the daemon keeps its instances and is on record if and
      only if the file, when the lock is taken, agrees. */
  lemma ReloadIsSafeIffFileAgrees(disk: Option<Persisted>, before: seq<Action>, id: nat, cfg: Config, taken: Config,
                                  actions: seq<Action>)
    requires AtTheLock(disk, before, id, cfg, taken)
    requires Reload(Run(Booted(disk), before), id, actions) && FileLeftAlone(Run(Booted(disk), before), id, actions)
    ensures var p := Run(Booted(disk), before); var q := Run(p, actions);
            && q.owner == None && q.core.slot == Some(cfg) && q.core.disk == p.core.disk
            && (Reloaded(q.core, taken, cfg) <==> FileAgrees(p.core.disk, taken, cfg))
  {
    hide Run, Next, Reloading, Booted, WritesFile;
    var p := Run(Booted(disk), before);
    BootedIsOwned(disk);
    RunKeepsOwned(Booted(disk), before);
    LockTaken(p, id, cfg, taken, actions[0].startOk, actions[0].writeOk);
    var q := Next(p, actions[0]);
    StillThere(q, id, cfg, taken);
    ReloadEnds(q, id, cfg, taken, actions[1..]);
    RunFirst(p, actions);
  }

  lemma RunFirst(p: Process, actions: seq<Action>)
    requires actions != []
    ensures Run(p, actions) == Run(Next(p, actions[0]), actions[1..])
  {
    hide Next;
  }

  // ---- among other changes -------------------------------------------------------------------------

  /** A change in flight that can only write what `cfg` says. */
  predicate Agrees(t: Task, cfg: Config) {
    match t
    case AlertsReads(alerting) => alerting == cfg.alerting
    case AlertsWrites(alerting, prior) =>
      alerting == cfg.alerting && AutostartOn(prior) && InstancesOn(prior) == cfg.instances
    case _ => true
  }

  ghost predicate OthersAgree(p: Process, id: nat, cfg: Config) {
    forall n :: n in p.tasks && n != id ==> Agrees(p.tasks[n], cfg)
  }

  /** Any request but a change of the alerting configuration may arrive. */
  ghost predicate NoNewChange(actions: seq<Action>) {
    forall a :: a in actions && a.Arrive? ==> !a.request.SetAlertsRequest?
  }

  lemma AgreementKept(p: Process, id: nat, cfg: Config, taken: Config, a: Action)
    requires Reloading(p, id, cfg, taken) && Smooth(a, id) && NoNewChange([a])
    requires FileAgrees(p.core.disk, taken, cfg) && OthersAgree(p, id, cfg)
    ensures var q := Next(p, a); FileAgrees(q.core.disk, taken, cfg) && OthersAgree(q, id, cfg)
  {
    hide Joined, Gone, BootConfig, Exclusive;
    assert a in [a];
    if a.Move? && a.id in p.tasks {
      OwnerHoldsLock(p, a.id);
      assert a.id != id ==> Agrees(p.tasks[a.id], cfg);
    }
  }

  lemma {:induction false} AgreementLasts(p: Process, id: nat, cfg: Config, taken: Config, actions: seq<Action>)
    requires Reloading(p, id, cfg, taken) && UntilReturn(p, id, actions) && NoNewChange(actions)
    requires FileAgrees(p.core.disk, taken, cfg) && OthersAgree(p, id, cfg)
    ensures FileAgrees(Run(p, actions).core.disk, taken, cfg)
    decreases |actions|
  {
    hide Next, Reloading, WritesFile, FileAgrees, OthersAgree;
    StillThere(p, id, cfg, taken);
    ReloadActs(p, id, cfg, taken, actions[0]);
    var q := Next(p, actions[0]);
    assert actions[0] in actions && forall a :: a in actions[1..] ==> a in actions;
    AgreementKept(p, id, cfg, taken, actions[0]);
    RunFirst(p, actions);
    assert UntilReturn(q, id, actions[1..]);
    if id in q.tasks {
      AgreementLasts(q, id, cfg, taken, actions[1..]);
    } else {
      assert actions[1..] == [] && Run(q, []) == q;
    }
  }

  /** Moves left to the reload. */
  function MovesLeft(t: Task): nat {
    match t
    case AlertsLocked(_) => 4
    case AlertsHoldsOld(_, _) => 3
    case AlertsReady(_) => 2
    case _ => 1
  }

  lemma MovesRunOut(p: Process, id: nat, cfg: Config, taken: Config)
    requires Reloading(p, id, cfg, taken)
    ensures var q := Step(p, id, p.tasks[id], true, true);
            id in q.tasks ==> MovesLeft(q.tasks[id]) < MovesLeft(p.tasks[id])
  {
    hide Joined, Gone, Exclusive;
  }

  /** Left alone, the reload ends, and the file stays as it is. */
  lemma {:induction false} Finishes(p: Process, id: nat, cfg: Config, taken: Config) returns (actions: seq<Action>)
    requires Reloading(p, id, cfg, taken)
    ensures UntilReturn(p, id, actions) && NoNewChange(actions) && Run(p, actions).core.disk == p.core.disk
    decreases if id in p.tasks then MovesLeft(p.tasks[id]) else 0
  {
    hide Step, Reloading, WritesFile, MovesLeft;
    var a := Move(id, true, true);
    StillThere(p, id, cfg, taken);
    ReloadActs(p, id, cfg, taken, a);
    NotItsOwnWrite(p, id, true);
    var q := Next(p, a);
    var rest: seq<Action> := [];
    if id in q.tasks {
      MovesRunOut(p, id, cfg, taken);
      rest := Finishes(q, id, cfg, taken);
    } else {
      assert Run(q, []) == q;
    }
    actions := [a] + rest;
    assert actions[1..] == rest;
    RunFirst(p, actions);
  }

  lemma NotItsOwnWrite(p: Process, id: nat, writeOk: bool)
    ensures !WritesFile(p, id, Move(id, true, writeOk))
  {
  }

  lemma StepsThenFinishes(p: Process, id: nat, a: Action, rest: seq<Action>)
    requires id in p.tasks && Smooth(a, id) && UntilReturn(Next(p, a), id, rest)
    requires NoNewChange([a]) && NoNewChange(rest)
    ensures UntilReturn(p, id, [a] + rest) && NoNewChange([a] + rest) && Run(p, [a] + rest) == Run(Next(p, a), rest)
  {
    hide Next;
    assert ([a] + rest)[1..] == rest;
    assert forall x :: x in [a] + rest ==> x in [a] || x in rest;
    RunFirst(p, [a] + rest);
  }

  /** A write inside the lock by a change that does not agree spoils the file. */
  lemma WriteSpoils(p: Process, id: nat, cfg: Config, taken: Config, n: nat)
    requires Reloading(p, id, cfg, taken) && n != id && n in p.tasks
    requires p.tasks[n].AlertsWrites? && !Agrees(p.tasks[n], cfg)
    ensures var q := Next(p, Move(n, true, true)); Reloading(q, id, cfg, taken) && !FileAgrees(q.core.disk, taken, cfg)
  {
    hide Reloading;
    OthersLeaveReload(p, id, cfg, taken, n, true, true);
  }

  /** A change that has yet to read brings its own alerting to its write. */
  lemma ReadBringsWrite(p: Process, id: nat, cfg: Config, taken: Config, n: nat)
    requires Reloading(p, id, cfg, taken) && n != id && n in p.tasks
    requires p.tasks[n].AlertsReads? && !Agrees(p.tasks[n], cfg)
    ensures var q := Next(p, Move(n, true, true));
            && Reloading(q, id, cfg, taken) && n in q.tasks
            && q.tasks[n].AlertsWrites? && !Agrees(q.tasks[n], cfg)
  {
    hide Reloading;
    OthersLeaveReload(p, id, cfg, taken, n, true, true);
  }

  /** Inside the lock: a run on which the file ends up in disagreement. */
  lemma Spoiled(p: Process, id: nat, cfg: Config, taken: Config) returns (actions: seq<Action>)
    requires Reloading(p, id, cfg, taken) && !(FileAgrees(p.core.disk, taken, cfg) && OthersAgree(p, id, cfg))
    ensures UntilReturn(p, id, actions) && NoNewChange(actions)
    ensures !FileAgrees(Run(p, actions).core.disk, taken, cfg)
  {
    hide Next, Run, Reloading, FileAgrees, Agrees, UntilReturn, NoNewChange;
    StillThere(p, id, cfg, taken);
    if !FileAgrees(p.core.disk, taken, cfg) {
      actions := Finishes(p, id, cfg, taken);
    } else {
      var n :| n in p.tasks && n != id && !Agrees(p.tasks[n], cfg);
      var a := Move(n, true, true);
      MoveIsSmooth(n, id);
      OnlyChangesDisagree(p.tasks[n], cfg);
      if p.tasks[n].AlertsWrites? {
        WriteSpoils(p, id, cfg, taken, n);
        var rest := Finishes(Next(p, a), id, cfg, taken);
        StepsThenFinishes(p, id, a, rest);
        actions := [a] + rest;
      } else {
        ReadBringsWrite(p, id, cfg, taken, n);
        var q := Next(p, a);
        StillThere(q, id, cfg, taken);
        WriteSpoils(q, id, cfg, taken, n);
        var rest := Finishes(Next(q, a), id, cfg, taken);
        StepsThenFinishes(q, id, a, rest);
        StepsThenFinishes(p, id, a, [a] + rest);
        actions := [a] + ([a] + rest);
      }
    }
  }

  lemma MoveIsSmooth(n: nat, id: nat)
    ensures Smooth(Move(n, true, true), id) && NoNewChange([Move(n, true, true)])
  {
  }

  lemma OnlyChangesDisagree(t: Task, cfg: Config)
    ensures !Agrees(t, cfg) ==> t.AlertsReads? || t.AlertsWrites?
  {
  }

  /** Every smooth run from the lock to the return of the change is safe. */
  ghost predicate AlwaysSafe(p: Process, id: nat, cfg: Config, taken: Config) {
    forall actions :: Reload(p, id, actions) && NoNewChange(actions) ==> Reloaded(Run(p, actions).core, taken, cfg)
  }

  /** Changes in flight may write too. Until the change returns, whatever they and the
      other handlers do, and whatever but further changes arrives, it is safe on every
      run if and only if, at the lock, the file agrees and so does every change still
      before its write. */
  lemma AlwaysSafeIffAllAgree(disk: Option<Persisted>, before: seq<Action>, id: nat, cfg: Config, taken: Config)
    requires AtTheLock(disk, before, id, cfg, taken)
    ensures var p := Run(Booted(disk), before);
            AlwaysSafe(p, id, cfg, taken) <==> FileAgrees(p.core.disk, taken, cfg) && OthersAgree(p, id, cfg)
  {
    hide Run, Next, Reloading, Booted, FileAgrees, Agrees, UntilReturn, NoNewChange, Reloaded;
    var p := Run(Booted(disk), before);
    BootedIsOwned(disk);
    RunKeepsOwned(Booted(disk), before);
    if FileAgrees(p.core.disk, taken, cfg) && OthersAgree(p, id, cfg) {
      forall actions | Reload(p, id, actions) && NoNewChange(actions)
        ensures Reloaded(Run(p, actions).core, taken, cfg)
      {
        AgreedIsSafe(p, id, cfg, taken, actions);
      }
    } else {
      var actions := UnsafeRun(p, id, cfg, taken);
    }
  }

  lemma UnsafeRun(p: Process, id: nat, cfg: Config, taken: Config) returns (actions: seq<Action>)
    requires Exclusive(p) && p.owner == None && id in p.tasks && p.tasks[id] == AlertsWaits(cfg)
    requires p.core.slot == Some(taken) && !(FileAgrees(p.core.disk, taken, cfg) && OthersAgree(p, id, cfg))
    ensures Reload(p, id, actions) && NoNewChange(actions) && !Reloaded(Run(p, actions).core, taken, cfg)
  {
    hide Run, Next, Reloading, FileAgrees, OthersAgree, UntilReturn, NoNewChange, Reloaded;
    var a := Move(id, true, true);
    LockTaken(p, id, cfg, taken, true, true);
    var q := Next(p, a);
    StillThere(q, id, cfg, taken);
    LockKeepsAgreement(p, q, id, AlertsLocked(cfg), cfg);
    var rest := Spoiled(q, id, cfg, taken);
    ReloadEnds(q, id, cfg, taken, rest);
    MoveIsSmooth(id, id);
    StepsThenFinishes(p, id, a, rest);
    actions := [a] + rest;
    OffRecord(Run(q, rest).core, taken, cfg);
  }

  lemma LockKeepsAgreement(p: Process, q: Process, id: nat, t: Task, cfg: Config)
    requires q.tasks == p.tasks[id := t]
    ensures OthersAgree(q, id, cfg) <==> OthersAgree(p, id, cfg)
  {
    hide Agrees;
    forall n | n != id
      ensures n in q.tasks <==> n in p.tasks
      ensures n in p.tasks ==> q.tasks[n] == p.tasks[n]
    {
    }
  }

  lemma OffRecord(c: Core, taken: Config, cfg: Config)
    requires c.slot == Some(cfg)
    ensures Reloaded(c, taken, cfg) <==> FileAgrees(c.disk, taken, cfg)
  {
  }

  lemma AgreedIsSafe(p: Process, id: nat, cfg: Config, taken: Config, actions: seq<Action>)
    requires Exclusive(p) && p.owner == None && id in p.tasks && p.tasks[id] == AlertsWaits(cfg)
    requires p.core.slot == Some(taken) && FileAgrees(p.core.disk, taken, cfg) && OthersAgree(p, id, cfg)
    requires Reload(p, id, actions) && NoNewChange(actions)
    ensures Reloaded(Run(p, actions).core, taken, cfg)
  {
    hide Run, Next, Reloading, FileAgrees, OthersAgree, Reloaded;
    LockTaken(p, id, cfg, taken, actions[0].startOk, actions[0].writeOk);
    var q := Next(p, actions[0]);
    StillThere(q, id, cfg, taken);
    assert actions[0] in actions && forall a :: a in actions[1..] ==> a in actions;
    LockKeepsAgreement(p, q, id, AlertsLocked(cfg), cfg);
    ReloadEnds(q, id, cfg, taken, actions[1..]);
    AgreementLasts(q, id, cfg, taken, actions[1..]);
    RunFirst(p, actions);
    OffRecord(Run(p, actions).core, taken, cfg);
  }

  // ---- left alone ----------------------------------------------------------------------------------

  /** Process `p` without handler `id`. */
  function WithoutTask(p: Process, id: nat): Process { p.(tasks := p.tasks - {id}) }

  lemma WaitingIsBeside(p: Process, id: nat)
    requires id in p.tasks
    ensures p == Beside(WithoutTask(p, id), p.core, id, p.tasks[id]) && id !in WithoutTask(p, id).tasks
  {
    assert p.tasks == (p.tasks - {id})[id := p.tasks[id]];
  }

  /** At the lock, in whatever state: a change that is then left alone is safe if
      and only if the file it finds is the one it would write, and names the
      instances of the daemon that runs. */
  lemma ChangeIsSafeIffFileIsCurrent(p: Process, id: nat, cfg: Config, taken: Config, writeOk: bool)
    requires p.owner == None && id in p.tasks && p.tasks[id] == AlertsWaits(cfg) && p.core.slot == Some(taken)
    ensures var q := Moves(p, id, true, writeOk, 5);
            && q.owner == None && q.tasks == p.tasks - {id} && q.core.disk == p.core.disk && q.core.slot == Some(cfg)
            && (Reloaded(q.core, taken, cfg) <==> FileAgrees(p.core.disk, taken, cfg))
  {
    hide Moves, Joined, Gone, Inside;
    var r := WithoutTask(p, id);
    WaitingIsBeside(p, id);
    Enters(r, p.core, id, AlertsWaits(cfg), true, writeOk, AlertsLocked(cfg), 4);
    ReloadAlone(r, p.core, id, cfg, true, writeOk);
  }

  /** Seen from the write: if nobody else moves between it and the lock, that
      comes to what the change read before, whenever that was. */
  lemma ChangeIsSafeIffReadIsCurrent(p: Process, id: nat, alerting: Alerting, prior: Option<Persisted>, taken: Config)
    requires p.owner == None && id in p.tasks && p.tasks[id] == AlertsWrites(alerting, prior)
    requires p.core.slot == Some(taken)
    ensures var cfg := Config(InstancesOn(prior), alerting); var q := Moves(p, id, true, true, 6);
            && q.owner == None && q.tasks == p.tasks - {id} && q.core.slot == Some(cfg)
            && q.core.disk == Some(Persisted(AutostartOn(prior), InstancesOn(prior), alerting))
            && (Reloaded(q.core, taken, cfg) <==> AutostartOn(prior) && InstancesOn(prior) == taken.instances)
  {
    hide Moves, Joined, Gone;
    var cfg := Config(InstancesOn(prior), alerting);
    var c := p.core.(disk := Some(Persisted(AutostartOn(prior), InstancesOn(prior), alerting)));
    var r := WithoutTask(p, id);
    WaitingIsBeside(p, id);
    Onwards(r, p.core, id, AlertsWrites(alerting, prior), true, true, c, AlertsWaits(cfg), 5);
    var w := Beside(r, c, id, AlertsWaits(cfg));
    assert w.tasks - {id} == p.tasks - {id};
    ChangeIsSafeIffFileIsCurrent(w, id, cfg, taken, true);
  }

  /** After a stop, when nothing runs: a change left alone from its write on leaves
      autostart off, so that the next boot starts nothing, if and only if what it read
      had it off or names no instance. */
  lemma StopOutlastsChangeIffReadOff(p: Process, id: nat, alerting: Alerting, prior: Option<Persisted>)
    requires p.owner == None && id in p.tasks && p.tasks[id] == AlertsWrites(alerting, prior)
    requires p.core.slot == None
    ensures var q := Moves(p, id, true, true, 6);
            && q.owner == None && q.tasks == p.tasks - {id} && q.core.slot == None
            && q.core.disk == Some(Persisted(AutostartOn(prior), InstancesOn(prior), alerting))
            && (!AutostartOn(q.core.disk) <==> !AutostartOn(prior))
            && (BootConfig(q.core.disk) == None <==> !AutostartOn(prior) || InstancesOn(prior) == [])
  {
    hide Moves, Joined, Gone, Inside;
    var cfg := Config(InstancesOn(prior), alerting);
    var c := p.core.(disk := Some(Persisted(AutostartOn(prior), InstancesOn(prior), alerting)));
    var r := WithoutTask(p, id);
    WaitingIsBeside(p, id);
    Onwards(r, p.core, id, AlertsWrites(alerting, prior), true, true, c, AlertsWaits(cfg), 5);
    Enters(r, c, id, AlertsWaits(cfg), true, true, AlertsLocked(cfg), 4);
    ReloadAlone(r, c, id, cfg, true, true);
  }

  // ---- three runs that go wrong -----------------------------------------------------------------------

  lemma {:induction false} MovesAreActions(p: Process, id: nat, n: nat) returns (actions: seq<Action>)
    ensures Run(p, actions) == Moves(p, id, true, true, n)
    decreases n
  {
    hide Step;
    if n == 0 || id !in p.tasks {
      actions := [];
    } else {
      var rest := MovesAreActions(Step(p, id, p.tasks[id], true, true), id, n - 1);
      actions := [Move(id, true, true)] + rest;
    }
  }

  lemma {:induction false} RunThen(p: Process, a: seq<Action>, b: seq<Action>)
    ensures Run(p, a + b) == Run(Run(p, a), b)
    decreases |a|
  {
    hide Next;
    if a == [] {
      assert a + b == b;
    } else {
      assert (a + b)[1..] == a[1..] + b;
      RunThen(Next(p, a[0]), a[1..], b);
    }
  }

  lemma RunOneAction(p: Process, a: Action)
    ensures Run(p, [a]) == Next(p, a)
  {
    hide Next;
    assert [a][1..] == [];
    assert Run(Next(p, a), []) == Next(p, a);
  }

  /** A whole handler as a stretch of actions. */
  lemma HandlerRuns(p: Process, id: nat, request: Request) returns (actions: seq<Action>)
    requires p.owner == None && id !in p.tasks
    ensures Run(p, actions) == WithCore(p, Whole(p.core, request, true, true))
  {
    hide Run, Moves, Whole;
    AloneIsWhole(p, id, request, true, true);
    var arrived := Next(p, Arrive(id, request));
    var rest := MovesAreActions(arrived, id, Steps(request));
    RunOneAction(p, Arrive(id, request));
    actions := [Arrive(id, request)] + rest;
    RunThen(p, [Arrive(id, request)], rest);
  }

  /** A change of the alerting configuration, up to and including its read. */
  lemma ChangeReads(p: Process, id: nat, alerting: Alerting) returns (actions: seq<Action>)
    requires id !in p.tasks
    ensures Run(p, actions) == Goto(p, id, AlertsWrites(alerting, p.core.disk))
  {
    hide Run;
    var arrived := Next(p, Arrive(id, SetAlertsRequest(alerting)));
    RunOneAction(p, Arrive(id, SetAlertsRequest(alerting)));
    RunOneAction(arrived, Move(id, true, true));
    actions := [Arrive(id, SetAlertsRequest(alerting))] + [Move(id, true, true)];
    RunThen(p, [Arrive(id, SetAlertsRequest(alerting))], [Move(id, true, true)]);
    assert p.tasks[id := AlertsReads(alerting)][id := AlertsWrites(alerting, p.core.disk)] ==
           p.tasks[id := AlertsWrites(alerting, p.core.disk)];
  }

  function Daemon(name: string): Config { Config([Instance(name, "")], Default) }

  /** The process while daemon `d` runs and is on record. */
  function Running(d: Config): Core {
    Core(Some(Persisted(true, d.instances, d.alerting)), Some(d), Joined(multiset{}, Some(d)))
  }

  lemma FirstStart(d: Config)
    requires d.alerting == Default
    ensures AfterStart(Core(None, None, multiset{}), d.instances, true, true) == Running(d)
  {
    hide Joined;
  }

  /** A start between the read and the write: the daemon loses its instances and
      is off record, although every step succeeds. */
  lemma AlertsRaceLosesInstances(alerting: Alerting) returns (actions: seq<Action>)
    ensures var q := Run(Booted(None), actions);
            && q.owner == None && q.tasks == map[]
            && q.core.slot == Some(Config([], alerting))
            && q.core.disk == Some(Persisted(false, [], alerting))
            && !OnRecord(q.core)
  {
    hide Run, Moves, Running, Joined;
    var d := Daemon("a");
    var a := ChangeReads(Booted(None), 0, alerting);
    var p := Run(Booted(None), a);
    var b := HandlerRuns(p, 1, StartRequest(d.instances));
    FirstStart(d);
    var q := WithCore(p, Running(d));
    var c := MovesAreActions(q, 0, 6);
    RunningSlot(d);
    ChangeIsSafeIffReadIsCurrent(q, 0, alerting, None, d);
    RunThen(Booted(None), a, b);
    RunThen(Booted(None), a + b, c);
    actions := a + b + c;
    assert map[0 := AlertsWrites(alerting, None)] - {0} == map[];
  }

  lemma RunningSlot(d: Config)
    ensures Running(d).slot == Some(d) && OnRecord(Running(d))
    ensures Running(d).disk == Some(Persisted(true, d.instances, d.alerting))
  {
    hide Joined;
  }

  /** A stop and a start with other instances, after the write and before the
      lock. */
  lemma OtherDaemonStarts(c: Core, d: Config)
    requires c.slot.Some? && AlertingOn(c.disk) == d.alerting
    ensures var s := AfterStart(AfterStop(c, true), d.instances, true, true);
            s.slot == Some(d) && s.disk == Some(Persisted(true, d.instances, d.alerting))
  {
    hide Joined, Gone;
  }

  /** A stop and a start between the write and the lock: although the read was of
      the file as it stood at the write, and that of the daemon that ran, the
      change brings that daemon back over the one the file records. */
  lemma AlertsRaceAfterWrite(alerting: Alerting) returns (before: seq<Action>, after: seq<Action>)
    ensures var p := Run(Booted(None), before); var q := Run(p, after);
            && p.tasks == map[0 := AlertsWrites(alerting, p.core.disk)]
            && p.core.slot == Some(Daemon("a")) && OnRecord(p.core)
            && q.owner == None && q.tasks == map[]
            && q.core.slot == Some(Config(Daemon("a").instances, alerting))
            && q.core.disk == Some(Persisted(true, Daemon("b").instances, alerting))
            && !OnRecord(q.core)
  {
    hide Run, Moves, Running, Joined, Gone, AfterStart, AfterStop;
    var d, e := Daemon("a"), Config(Daemon("b").instances, alerting);
    var b1 := HandlerRuns(Booted(None), 1, StartRequest(d.instances));
    FirstStart(d);
    RunningSlot(d);
    var p0 := Run(Booted(None), b1);
    var b2 := ChangeReads(p0, 0, alerting);
    before := b1 + b2;
    RunThen(Booted(None), b1, b2);
    var p := Run(Booted(None), before);
    var w := Next(p, Move(0, true, true));
    RunOneAction(p, Move(0, true, true));
    assert w.tasks == map[0 := AlertsWaits(Config(d.instances, alerting))];
    var a1 := HandlerRuns(w, 2, StopRequest);
    var w1 := Run(w, a1);
    var a2 := HandlerRuns(w1, 3, StartRequest(e.instances));
    OtherDaemonStarts(w.core, e);
    var w2 := Run(w1, a2);
    var a3 := MovesAreActions(w2, 0, 5);
    ChangeIsSafeIffFileIsCurrent(w2, 0, Config(d.instances, alerting), e, true);
    after := [Move(0, true, true)] + a1 + a2 + a3;
    RunThen(p, [Move(0, true, true)], a1);
    RunThen(p, [Move(0, true, true)] + a1, a2);
    RunThen(p, [Move(0, true, true)] + a1 + a2, a3);
    assert w2.tasks - {0} == map[];
    assert Daemon("a").instances[0].name != Daemon("b").instances[0].name;
  }

  lemma StoppedSlot(d: Config)
    ensures AfterStop(Running(d), true).slot == None && AfterStop(Running(d), true).live == multiset{}
  {
  }

  /** A stop between the read and the write: every step succeeds and nothing runs,
      yet the next boot brings back the daemon that was stopped. */
  lemma AlertsRaceUndoesStop(alerting: Alerting) returns (actions: seq<Action>)
    ensures var q := Run(Booted(None), actions);
            && q.owner == None && q.tasks == map[] && q.core.slot == None
            && BootConfig(q.core.disk) == Some(Config(Daemon("a").instances, alerting))
  {
    hide Run, Moves, Running, Joined, Gone, AfterStart, AfterStop;
    var d := Daemon("a");
    var a1 := HandlerRuns(Booted(None), 1, StartRequest(d.instances));
    FirstStart(d);
    RunningSlot(d);
    var p := Run(Booted(None), a1);
    var a2 := ChangeReads(p, 0, alerting);
    var p1 := Run(p, a2);
    var a3 := HandlerRuns(p1, 2, StopRequest);
    StoppedSlot(d);
    var p2 := Run(p1, a3);
    var a4 := MovesAreActions(p2, 0, 6);
    StopOutlastsChangeIffReadOff(p2, 0, alerting, Running(d).disk);
    RunThen(Booted(None), a1, a2);
    RunThen(Booted(None), a1 + a2, a3);
    RunThen(Booted(None), a1 + a2 + a3, a4);
    actions := a1 + a2 + a3 + a4;
    assert p2.tasks - {0} == map[];
  }
}
