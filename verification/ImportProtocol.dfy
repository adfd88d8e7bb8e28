/** Any number of read, patch, confirm and delete requests and one background worker,
    interleaved at their atomic steps, over one import session. */
module ImportProtocol {
  import opened Wrappers
  import opened ImportSession

  datatype Thread = Thread(req: Request, phase: Phase)

  datatype Worker =
    | NoWorker
    | Queued
    | Parsing(loaded: Row)
    | Crashed
    | ReportingFailure(failed: Row)
    | Stopped

  /** A committed write, as the log records it. */
  datatype Op =
    | Patched(req: Request, tables: Tables, at: int)
    | ConfirmedOp(creq: Request, ctables: Tables, cat: int)
    | Blind(row: Row)

  datatype State = State(row: Row, threads: map<nat, Thread>, worker: Worker, effects: seq<Effects>, log: seq<Op>)

  datatype Step =
    | Arrive(id: nat, req: Request)
    | LoadStep(id: nat, now: int, tables: Tables)
    | WriteStep(id: nat, now: int, tables: Tables)
    | Abort(id: nat)
    | WorkerLoad
    | WorkerComplete(now: int, next: Revalidated)
    | WorkerCrash
    | WorkerReload
    | WorkerFail(now: int, message: string)
    | WorkerDies

  function Advance(s: State, id: nat, phase: Phase): State
    requires id in s.threads
  {
    s.(threads := s.threads[id := s.threads[id].(phase := phase)])
  }

  function Commit(s: State, row: Row, op: Op): State {
    s.(row := row, log := s.log + [op])
  }

  /** The pending write of one request, committed now or refused. */
  function Write(svc: Service, s: State, id: nat, now: int, t: Tables): State
    requires id in s.threads
  {
    var th := s.threads[id];
    match th.phase
    case Expiring =>
      var row := ExpireRow(s.row, now);
      Advance(Commit(s, row, Blind(row)), id, Finished(410))
    case Failing(stale) =>
      var row := FailStaleRow(s.row, stale, STALE_MESSAGE, now);
      Advance(Commit(s, row, Blind(row)), id, Reloading)
    case Deleting(found) =>
      var row := DeleteRow(s.row, found, now);
      Advance(Commit(s, row, Blind(row)), id, Finished(204))
    case Patching(base, next, seen) =>
      if !CasHolds(s.row, base) then Advance(s, id, Finished(409))
      else Advance(Commit(s, PatchRow(s.row, base, next, now), Patched(th.req, seen, now)), id, Finished(200))
    case Confirming(claimed) =>
      if th.req.Confirm? && CasHolds(s.row, claimed) then
        match svc.create(t, claimed.payload, th.req.itemIds)
        case None => Advance(s, id, Finished(409))
        case Some(made) =>
          var s' := Commit(s, ConfirmRow(s.row, claimed, made.payload, now), ConfirmedOp(th.req, t, now));
          Advance(s'.(effects := s.effects + [made.effects]), id, Finished(201))
      else Advance(s, id, Finished(409))
    case _ => s
  }

  /** One atomic step; a step that is not enabled changes nothing. */
  function Apply(svc: Service, s: State, step: Step): State {
    match step
    case Arrive(id, req) =>
      if id in s.threads then s else s.(threads := s.threads[id := Thread(req, Arrived)])
    case LoadStep(id, now, t) =>
      if id !in s.threads then s
      else if s.threads[id].phase == Arrived then Advance(s, id, Load(svc, s.threads[id].req, s.row, now, t))
      else if s.threads[id].phase == Reloading then Advance(s, id, Decide(svc, s.threads[id].req, s.row, t))
      else s
    case WriteStep(id, now, t) =>
      if id in s.threads then Write(svc, s, id, now, t) else s
    case Abort(id) =>
      if id in s.threads then Advance(s, id, Finished(500)) else s
    case WorkerLoad =>
      if s.worker != Queued then s
      else s.(worker := if s.row.status == Processing then Parsing(s.row) else Stopped)
    case WorkerComplete(now, next) =>
      if s.worker.Parsing? && SummaryStatus(next.status) then
        var row := PatchRow(s.row, s.worker.loaded, next, now);
        Commit(s, row, Blind(row)).(worker := Stopped)
      else s
    case WorkerCrash =>
      if s.worker.Parsing? then s.(worker := Crashed) else s
    case WorkerReload =>
      if s.worker != Crashed then s
      else s.(worker := if s.row.status == Processing then ReportingFailure(s.row) else Stopped)
    case WorkerFail(now, message) =>
      if s.worker.ReportingFailure? then
        var row := FailStaleRow(s.row, s.worker.failed, message, now).(questions := []);
        Commit(s, row, Blind(row)).(worker := Stopped)
      else s
    case WorkerDies =>
      s.(worker := if s.worker == NoWorker then NoWorker else Stopped)
  }

  function Exec(svc: Service, s: State, steps: seq<Step>): State {
    if steps == [] then s else Apply(svc, Exec(svc, s, steps[..|steps| - 1]), steps[|steps| - 1])
  }

  /** A session as the two creating routes leave it: parsed at once, or handed to the worker. */
  predicate Initial(s: State) {
    && s.threads == map[] && s.effects == [] && s.log == []
    && ((s.worker == NoWorker && SummaryStatus(s.row.status)) || (s.worker == Queued && s.row.status == Processing))
  }

  predicate WorkerPending(w: Worker) {
    w != NoWorker && w != Stopped
  }

  // ---------------------------------------------------------------- at most one confirm

  predicate PhaseFits(th: Thread) {
    && (th.phase.Patching? ==> th.req.Patch? && Editable(th.phase.base.status) && SummaryStatus(th.phase.next.status))
    && (th.phase.Confirming? ==> th.req.Confirm? && MayConfirm(th.req, th.phase.claimed))
  }

  function ConfirmCount(log: seq<Op>): nat {
    if log == [] then 0
    else ConfirmCount(log[..|log| - 1]) + if log[|log| - 1].ConfirmedOp? then 1 else 0
  }

  ghost predicate PhasesFit(threads: map<nat, Thread>) {
    forall id :: id in threads ==> PhaseFits(threads[id])
  }

  ghost predicate ConfirmInv(s: State) {
    && PhasesFit(s.threads)
    && (WorkerPending(s.worker) ==> s.row.status in {Processing, Failed, Expired} && s.effects == [])
    && (s.effects != [] ==> Dead(s.row.status))
    && |s.effects| <= 1
    && ConfirmCount(s.log) == |s.effects|
  }

  lemma ConfirmStep(svc: Service, s: State, step: Step)
    requires WellBehaved(svc) && ConfirmInv(s)
    ensures ConfirmInv(Apply(svc, s, step))
  {
    if step.WriteStep? {
      if step.id in s.threads {
        ConfirmWrite(svc, s, step.id, step.now, step.tables);
      }
    } else if step.WorkerComplete? || step.WorkerFail? {
      ConfirmWorker(svc, s, step);
    } else {
      assert PhasesFit(s.threads);
    }
  }

  lemma LogSnoc(log: seq<Op>, op: Op)
    ensures ConfirmCount(log + [op]) == ConfirmCount(log) + if op.ConfirmedOp? then 1 else 0
  {
    assert (log + [op])[..|log|] == log;
  }

  lemma ConfirmWrite(svc: Service, s: State, id: nat, now: int, t: Tables)
    requires WellBehaved(svc) && ConfirmInv(s) && id in s.threads
    ensures ConfirmInv(Write(svc, s, id, now, t))
  {
    WritePhases(svc, s, id, now, t);
    if s.threads[id].phase.Confirming? {
      ConfirmCommit(svc, s, id, now, t);
    } else {
      PlainWrite(svc, s, id, now, t);
    }
  }

  /** Any other write commits no assignments, and leaves a dead session dead and a pending one pending or dead. */
  lemma PlainWrite(svc: Service, s: State, id: nat, now: int, t: Tables)
    requires WellBehaved(svc) && ConfirmInv(s) && id in s.threads && !s.threads[id].phase.Confirming?
    ensures PlainChange(s, Write(svc, s, id, now, t))
    ensures ConfirmCount(Write(svc, s, id, now, t).log) == ConfirmCount(s.log)
  {
    assert PhaseFits(s.threads[id]);
    PlainStatus(svc, s, id, now, t);
    PlainCount(svc, s, id, now, t);
  }

  predicate PlainChange(s: State, s': State) {
    && s'.effects == s.effects && s'.worker == s.worker
    && (Dead(s.row.status) ==> Dead(s'.row.status))
    && (s.row.status in {Processing, Failed, Expired} ==> s'.row.status in {Processing, Failed, Expired})
  }

  lemma PlainStatus(svc: Service, s: State, id: nat, now: int, t: Tables)
    requires id in s.threads && !s.threads[id].phase.Confirming? && PhaseFits(s.threads[id])
    ensures PlainChange(s, Write(svc, s, id, now, t))
  {
  }

  lemma PlainCount(svc: Service, s: State, id: nat, now: int, t: Tables)
    requires id in s.threads && !s.threads[id].phase.Confirming?
    ensures ConfirmCount(Write(svc, s, id, now, t).log) == ConfirmCount(s.log)
  {
    var s' := Write(svc, s, id, now, t);
    if s'.log != s.log {
      PlainLog(svc, s, id, now, t);
      LogSnoc(s.log, s'.log[|s.log|]);
    }
  }

  lemma PlainLog(svc: Service, s: State, id: nat, now: int, t: Tables)
    requires id in s.threads && !s.threads[id].phase.Confirming? && Write(svc, s, id, now, t).log != s.log
    ensures exists op: Op :: !op.ConfirmedOp? && Write(svc, s, id, now, t).log == s.log + [op]
  {
  }

  lemma WritePhases(svc: Service, s: State, id: nat, now: int, t: Tables)
    requires PhasesFit(s.threads) && id in s.threads
    ensures PhasesFit(Write(svc, s, id, now, t).threads)
  {
    assert PhaseFits(s.threads[id]);
  }

  /** A confirm that finds its snapshot unchanged finds the session live, so nothing has committed before. */
  lemma ConfirmCommit(svc: Service, s: State, id: nat, now: int, t: Tables)
    requires WellBehaved(svc) && ConfirmInv(s) && id in s.threads && s.threads[id].phase.Confirming?
    ensures var s' := Write(svc, s, id, now, t);
            s'.worker == s.worker &&
            if s'.effects == s.effects then s'.row == s.row && s'.log == s.log
            else s.effects == [] && |s'.effects| == 1 && s'.row.status == Confirmed && ConfirmCount(s'.log) == 1
                 && !WorkerPending(s.worker)
  {
    var s' := Write(svc, s, id, now, t);
    assert PhaseFits(s.threads[id]);
    if s'.log != s.log {
      LogSnoc(s.log, s'.log[|s.log|]);
    }
  }

  lemma ConfirmWorker(svc: Service, s: State, step: Step)
    requires WellBehaved(svc) && ConfirmInv(s) && (step.WorkerComplete? || step.WorkerFail?)
    ensures ConfirmInv(Apply(svc, s, step))
  {
    var s' := Apply(svc, s, step);
    if s'.log != s.log {
      LogSnoc(s.log, s'.log[|s.log|]);
    }
  }

  /** In every interleaving, worker included, at most one confirm of a session commits, and
      once one has, the session is never editable again. */
  lemma {:induction false} AtMostOneConfirm(svc: Service, s: State, steps: seq<Step>)
    requires WellBehaved(svc) && Initial(s)
    ensures ConfirmInv(Exec(svc, s, steps))
  {
    if steps != [] {
      AtMostOneConfirm(svc, s, steps[..|steps| - 1]);
      ConfirmStep(svc, Exec(svc, s, steps[..|steps| - 1]), steps[|steps| - 1]);
    }
  }

  // ---------------------------------------------------------------- who can revive a session

  /** The worker is about to write over a row that has left the processing state. */
  predicate Overwrites(s: State, step: Step) {
    && ((step.WorkerComplete? && s.worker.Parsing? && SummaryStatus(step.next.status))
        || (step.WorkerFail? && s.worker.ReportingFailure?))
    && s.row.status != Processing
  }

  /** A confirmed, expired or failed session comes back to life exactly when the worker
      overwrites it with an editable result; no request can do it. */
  lemma RevivedOnlyByWorker(svc: Service, s: State, step: Step)
    requires WellBehaved(svc) && ConfirmInv(s) && Dead(s.row.status)
    ensures Editable(Apply(svc, s, step).row.status)
            <==> (Overwrites(s, step) && step.WorkerComplete? && Editable(step.next.status))
    ensures !Dead(Apply(svc, s, step).row.status) ==> Overwrites(s, step) && s.effects == []
  {
  }

  // ---------------------------------------------------------------- the delete that sets a revision back

  /** What a pending patch or confirm read. */
  function Seen(th: Thread): Option<Row> {
    match th.phase
    case Patching(base, _, _) => Some(base)
    case Confirming(claimed) => Some(claimed)
    case _ => None
  }

  /** A delete that read the session as expired is about to write over an editable row. */
  predicate DeletesRevived(s: State, step: Step) {
    && step.WriteStep? && step.id in s.threads && s.threads[step.id].phase.Deleting?
    && s.threads[step.id].phase.found.status == Expired && Editable(s.row.status)
  }

  /** Such a delete writes a revision that a pending patch or confirm, which has read the row since
      it was revived, may later mistake for its own. */
  predicate SetsBack(s: State, step: Step) {
    && DeletesRevived(s, step)
    && exists id :: id in s.threads && Seen(s.threads[id]).Some?
                    && Undercuts(s.row, s.threads[step.id].phase.found, Seen(s.threads[id]).value)
  }

  /** found.revision + 1 is below the revision seen, or is that revision although the draft has moved on. */
  predicate Undercuts(row: Row, found: Row, seen: Row) {
    || found.revision + 1 < seen.revision
    || (found.revision + 1 == seen.revision && !SameDraft(row.(revision := seen.revision), seen))
  }

  /** The same but for the time of the last write, which no request looks at. */
  predicate SameDraft(a: Row, b: Row) {
    a.(updatedAt := 0) == b.(updatedAt := 0)
  }

  /** No step of the run is such a delete. */
  ghost predicate Steady(svc: Service, s: State, steps: seq<Step>) {
    steps == []
    || (Steady(svc, s, steps[..|steps| - 1])
        && !SetsBack(Exec(svc, s, steps[..|steps| - 1]), steps[|steps| - 1]))
  }

  /** A committed change from one editable row to another raises the revision by exactly one,
      unless it is a delete of a revived session whose snapshot had another revision than the row. */
  lemma RevisionRisesIff(svc: Service, s: State, step: Step)
    requires WellBehaved(svc) && ConfirmInv(s) && Apply(svc, s, step).log != s.log
    requires Editable(s.row.status) && Editable(Apply(svc, s, step).row.status)
    ensures Apply(svc, s, step).row.revision == s.row.revision + 1
            <==> (DeletesRevived(s, step) ==> s.threads[step.id].phase.found.revision == s.row.revision)
  {
    if step.WriteStep? && step.id in s.threads {
      assert PhaseFits(s.threads[step.id]);
    }
  }

  /** An editable row's revision is lowered exactly by a delete that read a revision at least two below it. */
  lemma RevisionFallsIff(svc: Service, s: State, step: Step)
    requires WellBehaved(svc) && ConfirmInv(s)
    requires Editable(s.row.status) && Editable(Apply(svc, s, step).row.status)
    ensures Apply(svc, s, step).row.revision < s.row.revision
            <==> DeletesRevived(s, step) && s.threads[step.id].phase.found.revision + 1 < s.row.revision
  {
    if step.WriteStep? && step.id in s.threads {
      assert PhaseFits(s.threads[step.id]);
    }
  }

  /** A delete that read the session as expired finds it dead, as long as the worker revives nothing. */
  ghost predicate ExpiredStayDead(s: State) {
    forall id :: id in s.threads && s.threads[id].phase.Deleting? && s.threads[id].phase.found.status == Expired
      ==> Dead(s.row.status)
  }

  /** No worker write lands on a row that is no longer processing. */
  ghost predicate Calm(svc: Service, s: State, steps: seq<Step>) {
    steps == []
    || (Calm(svc, s, steps[..|steps| - 1])
        && !Overwrites(Exec(svc, s, steps[..|steps| - 1]), steps[|steps| - 1]))
  }

  lemma DeadStep(svc: Service, s: State, step: Step)
    requires WellBehaved(svc) && ConfirmInv(s) && ExpiredStayDead(s) && !Overwrites(s, step)
    ensures ExpiredStayDead(Apply(svc, s, step))
  {
    if Dead(s.row.status) {
      RevivedOnlyByWorker(svc, s, step);
    }
  }

  /** Where the worker overwrites nothing, no delete can set a revision back. */
  lemma {:induction false} CalmIsSteady(svc: Service, s: State, steps: seq<Step>)
    requires WellBehaved(svc) && Initial(s) && Calm(svc, s, steps)
    ensures Steady(svc, s, steps) && ExpiredStayDead(Exec(svc, s, steps))
  {
    if steps != [] {
      var front := steps[..|steps| - 1];
      CalmIsSteady(svc, s, front);
      AtMostOneConfirm(svc, s, front);
      DeadStep(svc, Exec(svc, s, front), steps[|steps| - 1]);
    }
  }

  // ---------------------------------------------------------------- serialisability

  datatype Serial = Serial(row: Row, effects: seq<Effects>)

  /** The reference machine: a patch or a confirm runs whole, against the stored row. */
  function SerialStep(svc: Service, s: Serial, op: Op): Option<Serial> {
    match op
    case Patched(req, t, now) =>
      if !req.Patch? then None
      else (match PatchPlan(svc, req, s.row, t)
            case Err(_) => None
            case Ok(next) =>
              Some(s.(row := s.row.(payload := next.payload, questions := next.questions, status := next.status,
                                    revision := s.row.revision + 1, updatedAt := now))))
    case ConfirmedOp(req, t, now) =>
      if !req.Confirm? || !MayConfirm(req, s.row) then None
      else (match svc.create(t, s.row.payload, req.itemIds)
            case None => None
            case Some(made) =>
              Some(Serial(s.row.(payload := made.payload, status := Confirmed,
                                 revision := s.row.revision + 1, updatedAt := now),
                          s.effects + [made.effects])))
    case Blind(row) => Some(s.(row := row))
  }

  function SerialRun(svc: Service, row: Row, log: seq<Op>): Option<Serial> {
    if log == [] then Some(Serial(row, []))
    else match SerialRun(svc, row, log[..|log| - 1])
      case None => None
      case Some(s) => SerialStep(svc, s, log[|log| - 1])
  }

  /** A snapshot with which a compare-and-set may still succeed holds the stored draft. */
  predicate Current(row: Row, seen: Row) {
    Editable(row.status) ==> seen.revision <= row.revision && (seen.revision == row.revision ==> SameDraft(seen, row))
  }

  predicate SnapshotOk(svc: Service, s: State, th: Thread) {
    && (Seen(th).Some? ==> Current(s.row, Seen(th).value) && !WorkerPending(s.worker))
    && (th.phase.Patching? ==>
          th.req.Patch? && PatchPlan(svc, th.req, th.phase.base, th.phase.tables) == Ok(th.phase.next))
  }

  ghost predicate SerialInv(svc: Service, s: State, row0: Row) {
    && ConfirmInv(s)
    && (forall id :: id in s.threads ==> SnapshotOk(svc, s, s.threads[id]))
    && SerialRun(svc, row0, s.log) == Some(Serial(s.row, s.effects))
  }

  /** What a step does to a pending snapshot: it stays current unless the step undercuts it. */
  lemma PendingStepIff(svc: Service, s: State, step: Step, id: nat)
    requires WellBehaved(svc) && ConfirmInv(s)
    requires id in s.threads && Seen(s.threads[id]).Some? && SnapshotOk(svc, s, s.threads[id])
    requires id in Apply(svc, s, step).threads && Apply(svc, s, step).threads[id] == s.threads[id]
    ensures SnapshotOk(svc, Apply(svc, s, step), s.threads[id])
            <==> !(DeletesRevived(s, step) && Undercuts(s.row, s.threads[step.id].phase.found,
                                                        Seen(s.threads[id]).value))
  {
    if step.WriteStep? && step.id in s.threads {
      assert PhaseFits(s.threads[step.id]);
    }
  }

  /** A snapshot just taken is the stored row. */
  lemma DecideOk(svc: Service, s: State, req: Request, t: Tables)
    requires ConfirmInv(s)
    ensures SnapshotOk(svc, s, Thread(req, Decide(svc, req, s.row, t)))
  {
  }

  /** A thread that a step has moved on, or that has just arrived. */
  lemma MovedThread(svc: Service, s: State, step: Step, id: nat)
    requires ConfirmInv(s) && id in Apply(svc, s, step).threads
    requires id in s.threads ==> Apply(svc, s, step).threads[id] != s.threads[id]
    ensures SnapshotOk(svc, Apply(svc, s, step), Apply(svc, s, step).threads[id])
  {
    if step.LoadStep? && id in s.threads {
      DecideOk(svc, s, s.threads[id].req, step.tables);
    } else {
      NothingPending(svc, s, step, id);
    }
  }

  /** Only loading a session leaves a request with a snapshot it did not have. */
  lemma NothingPending(svc: Service, s: State, step: Step, id: nat)
    requires id in Apply(svc, s, step).threads && (!step.LoadStep? || id !in s.threads)
    requires id in s.threads ==> Apply(svc, s, step).threads[id] != s.threads[id]
    ensures Seen(Apply(svc, s, step).threads[id]).None?
  {
  }

  lemma ThreadsStep(svc: Service, s: State, step: Step, row0: Row, id: nat)
    requires WellBehaved(svc) && SerialInv(svc, s, row0) && !SetsBack(s, step)
    requires id in Apply(svc, s, step).threads
    ensures SnapshotOk(svc, Apply(svc, s, step), Apply(svc, s, step).threads[id])
  {
    if id !in s.threads || Apply(svc, s, step).threads[id] != s.threads[id] {
      MovedThread(svc, s, step, id);
    } else if Seen(s.threads[id]).Some? {
      PendingStepIff(svc, s, step, id);
    }
  }

  /** The write just logged is the step the reference machine takes. */
  lemma SerialAgrees(svc: Service, s: State, step: Step, row0: Row)
    requires SerialInv(svc, s, row0)
    ensures LogsSerially(svc, s, Apply(svc, s, step))
  {
    if step.WriteStep? && step.id in s.threads {
      WriteAgrees(svc, s, step.id, step.now, step.tables);
    }
  }

  /** Nothing is logged, or one write which the reference machine takes from the stored row. */
  ghost predicate LogsSerially(svc: Service, s: State, s': State) {
    || (s'.log == s.log && s'.row == s.row && s'.effects == s.effects)
    || (|s'.log| == |s.log| + 1 && s'.log[..|s.log|] == s.log
        && SerialStep(svc, Serial(s.row, s.effects), s'.log[|s.log|]) == Some(Serial(s'.row, s'.effects)))
  }

  lemma WriteAgrees(svc: Service, s: State, id: nat, now: int, t: Tables)
    requires id in s.threads && SnapshotOk(svc, s, s.threads[id]) && PhaseFits(s.threads[id])
    ensures LogsSerially(svc, s, Write(svc, s, id, now, t))
  {
  }

  /** The invariant behind serialisability is kept by every step but a delete that sets a revision back. */
  lemma SteadyStepIff(svc: Service, s: State, step: Step, row0: Row)
    requires WellBehaved(svc) && SerialInv(svc, s, row0)
    ensures SerialInv(svc, Apply(svc, s, step), row0) <==> !SetsBack(s, step)
  {
    var s' := Apply(svc, s, step);
    if SetsBack(s, step) {
      Undercut(svc, s, step, row0);
    } else {
      ConfirmStep(svc, s, step);
      SerialAgrees(svc, s, step, row0);
      forall id | id in s'.threads
        ensures SnapshotOk(svc, s', s'.threads[id])
      {
        ThreadsStep(svc, s, step, row0, id);
      }
    }
  }

  lemma Undercut(svc: Service, s: State, step: Step, row0: Row)
    requires WellBehaved(svc) && SerialInv(svc, s, row0) && SetsBack(s, step)
    ensures !SerialInv(svc, Apply(svc, s, step), row0)
  {
    var id :| id in s.threads && Seen(s.threads[id]).Some?
              && Undercuts(s.row, s.threads[step.id].phase.found, Seen(s.threads[id]).value);
    assert SnapshotOk(svc, s, s.threads[id]);
    assert Apply(svc, s, step).threads[id] == s.threads[id];
    PendingStepIff(svc, s, step, id);
  }

  /** In every interleaving, worker and revived sessions included, in which no delete sets the revision
      back below a pending edit, the committed writes are those of a serial run: each successful patch is
      computed from the draft stored just before it, and the confirm creates its records from exactly the
      draft stored when it commits, each with its revision check made against the stored revision. */
  lemma {:induction false} Serialisable(svc: Service, s: State, steps: seq<Step>)
    requires WellBehaved(svc) && Initial(s) && Steady(svc, s, steps)
    ensures SerialInv(svc, Exec(svc, s, steps), s.row)
  {
    if steps != [] {
      Serialisable(svc, s, steps[..|steps| - 1]);
      SteadyStepIff(svc, Exec(svc, s, steps[..|steps| - 1]), steps[|steps| - 1], s.row);
    }
  }

  /** The invariant holds after every prefix of the run. */
  ghost predicate AlwaysSerial(svc: Service, s: State, steps: seq<Step>) {
    && SerialInv(svc, Exec(svc, s, steps), s.row)
    && (steps == [] || AlwaysSerial(svc, s, steps[..|steps| - 1]))
  }

  /** It does so exactly in the runs without such a delete. */
  lemma {:induction false} AlwaysSerialIff(svc: Service, s: State, steps: seq<Step>)
    requires WellBehaved(svc) && Initial(s)
    ensures AlwaysSerial(svc, s, steps) <==> Steady(svc, s, steps)
  {
    if steps == [] {
      Serialisable(svc, s, steps);
    } else {
      var front := steps[..|steps| - 1];
      AlwaysSerialIff(svc, s, front);
      if SerialInv(svc, Exec(svc, s, front), s.row) {
        SteadyStepIff(svc, Exec(svc, s, front), steps[|steps| - 1], s.row);
      }
    }
  }

  /** What goes wrong otherwise: when the delete writes just the revision that a pending patch has read, that patch
      commits, and stores what it made of its own snapshot in place of the draft that has moved on. */
  lemma StalePatchCommits(svc: Service, s: State, step: Step, id: nat, now: int, t: Tables)
    requires DeletesRevived(s, step) && id in s.threads && s.threads[id].phase.Patching?
    requires s.threads[id].phase.base.revision == s.threads[step.id].phase.found.revision + 1
    requires s.threads[id].phase.base.status == s.row.status
    ensures var s' := Apply(svc, Apply(svc, s, step), WriteStep(id, now, t));
            s'.threads[id].phase == Finished(200) && s'.row.payload == s.threads[id].phase.next.payload
            && s'.log == s.log + [Blind(Apply(svc, s, step).row),
                                  Patched(s.threads[id].req, s.threads[id].phase.tables, now)]
  {
  }

  /** So does a pending confirm that such a delete makes its revision for: it creates its records from the draft it
      had read. */
  lemma StaleConfirmCommits(svc: Service, s: State, step: Step, id: nat, now: int, t: Tables)
    requires DeletesRevived(s, step) && id in s.threads && s.threads[id].phase.Confirming? && s.threads[id].req.Confirm?
    requires s.threads[id].phase.claimed.revision == s.threads[step.id].phase.found.revision + 1
    requires s.threads[id].phase.claimed.status == s.row.status
    requires svc.create(t, s.threads[id].phase.claimed.payload, s.threads[id].req.itemIds).Some?
    ensures var s' := Apply(svc, Apply(svc, s, step), WriteStep(id, now, t));
            var made := svc.create(t, s.threads[id].phase.claimed.payload, s.threads[id].req.itemIds).value;
            && s'.threads[id].phase == Finished(201) && s'.row.status == Confirmed
            && s'.row.payload == made.payload && s'.effects == s.effects + [made.effects]
  {
  }
}
