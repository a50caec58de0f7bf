/**
 However starts and stops interleave, the configuration file stays in step with
 the daemon.
 */
module MonitorRuns {
  import opened Wrappers
  import opened Monitor
  import opened MonitorSteps

  // ---- starts and stops ------------------------------------------------------------------------

  predicate Plain(t: Task) {
    t.StartWaits? || t.StartLocked? || t.StartReady? || t.StartHolds? || t.StartStored?
    || t.StopWaits? || t.StopLocked? || t.StopHolds? || t.StopReads? || t.StopWrites?
  }

  ghost predicate AllPlain(p: Process) { forall id :: id in p.tasks ==> Plain(p.tasks[id]) }

  /** What the lock owner knows of the file and the slot. */
  predicate OwnerRecord(c: Core, t: Task) {
    match t
    case StartLocked(_) => OnRecord(c)
    case StartReady(cfg) => c.slot == None && cfg.alerting == AlertingOn(c.disk)
    case StartHolds(cfg) => c.slot == None && cfg.alerting == AlertingOn(c.disk)
    case StartStored(cfg) => c.slot == Some(cfg)
    case StopLocked => OnRecord(c)
    case StopHolds(_) => c.slot == None
    case StopReads => c.slot == None
    case StopWrites(_) => c.slot == None
    case _ => false
  }

  predicate Recorded(p: Process) {
    match p.owner
    case None => OnRecord(p.core)
    case Some(id) => id in p.tasks && OwnerRecord(p.core, p.tasks[id])
  }

  predicate StartOrStop(a: Action) {
    match a
    case Arrive(_, request) => request.StartRequest? || request.StopRequest?
    case Move(_, _, writeOk) => writeOk
    case Crash => true
  }

  lemma MoveKeepsPlain(p: Process, id: nat, startOk: bool, writeOk: bool)
    requires AllPlain(p) && id in p.tasks
    ensures AllPlain(Step(p, id, p.tasks[id], startOk, writeOk))
  {
    hide Joined, Gone, Written;
  }

  lemma MoveKeepsRecorded(p: Process, id: nat, startOk: bool)
    requires Exclusive(p) && Recorded(p) && id in p.tasks && Plain(p.tasks[id])
    ensures Recorded(Step(p, id, p.tasks[id], startOk, true))
  {
    hide Joined, Gone, Exclusive;
    OwnerHoldsLock(p, id);
  }

  ghost predicate InStep(p: Process) { Exclusive(p) && AllPlain(p) && Recorded(p) }

  lemma ActionKeepsInStep(p: Process, a: Action)
    requires InStep(p) && StartOrStop(a)
    ensures InStep(Next(p, a))
  {
    hide Step, OnRecord;
    match a
    case Arrive(id, request) => ArriveKeepsInStep(p, id, request);
    case Move(id, startOk, writeOk) =>
      if id in p.tasks {
        MoveExcludes(p, id, startOk, writeOk);
        MoveKeepsPlain(p, id, startOk, writeOk);
        MoveKeepsRecorded(p, id, startOk);
      }
    case Crash => CrashInStep(p);
  }

  lemma ArriveKeepsInStep(p: Process, id: nat, request: Request)
    requires InStep(p) && (request.StartRequest? || request.StopRequest?)
    ensures InStep(Next(p, Arrive(id, request)))
  {
    hide OnRecord, OwnerRecord;
  }

  lemma CrashInStep(p: Process)
    ensures InStep(Next(p, Crash))
  {
  }

  lemma {:induction false} RunKeepsInStep(p: Process, actions: seq<Action>)
    requires InStep(p) && forall a :: a in actions ==> StartOrStop(a)
    ensures InStep(Run(p, actions))
    decreases |actions|
  {
    hide InStep, StartOrStop, Next;
    if actions != [] {
      assert actions[0] in actions && forall a :: a in actions[1..] ==> a in actions;
      ActionKeepsInStep(p, actions[0]);
      RunKeepsInStep(Next(p, actions[0]), actions[1..]);
    }
  }

  /** However starts, stops and crashes interleave, if their writes succeed then
      whenever the lock is free a running daemon is on record, and a crash and
      a reboot bring the same configuration back exactly if it has an instance
      and the daemon comes up. */
  lemma StartsAndStopsSerialize(p: Process, actions: seq<Action>, startOk: bool)
    requires p.owner == None && p.tasks == map[] && OnRecord(p.core)
    requires forall a :: a in actions ==> StartOrStop(a)
    ensures var q := Run(p, actions);
            q.owner == None ==>
              && OnRecord(q.core)
              && (q.core.slot.Some? ==>
                    (AfterAutostart(AfterCrash(q.core), startOk).slot == q.core.slot
                     <==> q.core.slot.value.instances != [] && startOk))
  {
    hide Run, StartOrStop, Joined;
    assert InStep(p);
    RunKeepsInStep(p, actions);
    assert InStep(Run(p, actions));
  }
}
