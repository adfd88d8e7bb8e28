/** What each step of the import protocol does, and how requests are answered
    (backend/routers/bulk_assignment_import.py, lines 63-101 and 220-379;
    backend/services/bulk_assignment_import.py, lines 863-943). */
module ImportSteps {
  import opened Wrappers
  import opened ImportDraft
  import opened ImportSession
  import opened ImportProtocol

  // ---------------------------------------------------------------- what a request decides

  /** Still being worked on. */
  predicate Open(s: Status) {
    s == Draft || s == NeedsClarification || s == Ready
  }

  /** A patch goes ahead exactly when the session is open, the client's revision, if it sends one, is the row's, the
      edits apply and the draft they give can be revalidated; the result is then what revalidation makes of it. */
  lemma PatchAcceptedIff(svc: Service, req: Request, row: Row, t: Tables, next: Revalidated)
    requires req.Patch?
    ensures PatchPlan(svc, req, row, t) == Ok(next)
            <==> && Open(row.status) && (req.clientRevision == None || req.clientRevision == Some(row.revision))
                 && exists items :: Edited(svc.assign, row.questions, row.payload.items, req.answers, req.edits)
                                        == Ok(items)
                                    && svc.revalidate(t, Payload(items, row.payload.weekly, row.payload.error))
                                        == Some(next)
  {
    var edited := Edited(svc.assign, row.questions, row.payload.items, req.answers, req.edits);
    if edited.Ok? {
      assert row.payload.(items := edited.value) == Payload(edited.value, row.payload.weekly, row.payload.error);
    }
  }

  /** How a patch is refused: a conflict when the session is not open or has another revision; a bad request for an
      answer or an edit that does not fit, a server error for a value that cannot be converted, not found after a
      failed revalidation. */
  lemma PatchRefusedWith(svc: Service, req: Request, row: Row, t: Tables)
    requires req.Patch? && PatchPlan(svc, req, row, t).Err?
    ensures var code := PatchPlan(svc, req, row, t).error;
            var edited := Edited(svc.assign, row.questions, row.payload.items, req.answers, req.edits);
            && (code == 409
                <==> !Open(row.status) || (req.clientRevision.Some? && req.clientRevision != Some(row.revision)))
            && (code == 404 <==> code != 409 && edited.Ok?)
            && (code == 500 <==> code != 409 && edited == Err(BadValue))
            && (code == 400 <==> code != 409 && edited.Err? && edited != Err(BadValue))
  {
  }

  /** A confirm goes ahead exactly for a ready session, or a weekly one that needs clarification if items are named, of
      the revision the client knows; it then claims the row as read. */
  lemma ConfirmAcceptedIff(svc: Service, req: Request, row: Row, t: Tables)
    requires req.Confirm?
    ensures Decide(svc, req, row, t) == Confirming(row)
            <==> (row.status == Ready || (row.status == NeedsClarification
                                                                   && row.payload.weekly && req.itemIds != None))
                 && (req.clientRev == None || req.clientRev == Some(row.revision))
    ensures Decide(svc, req, row, t) == Confirming(row) || Decide(svc, req, row, t) == Finished(409)
  {
  }

  /** A read succeeds, a delete leaves a confirmed session alone, and a patch carries on from the row it read. */
  lemma DecideIs(svc: Service, req: Request, row: Row, t: Tables)
    ensures req == Read ==> Decide(svc, req, row, t) == Finished(200)
    ensures req == Delete ==>
              Decide(svc, req, row, t) == if row.status == Confirmed then Finished(204) else Deleting(row)
    ensures req.Patch? ==> match PatchPlan(svc, req, row, t)
                           case Ok(next) => Decide(svc, req, row, t) == Patching(row, next, t)
                           case Err(code) => Decide(svc, req, row, t) == Finished(code)
  {
  }

  /** A session whose time is up is expired by whoever loads it, unless it is confirmed or expired already; one that has
      been processing for too long is failed; any other is what the request decides on. */
  lemma LoadIs(svc: Service, req: Request, row: Row, now: int, t: Tables)
    ensures Load(svc, req, row, now, t) == Expiring
            <==> now >= row.expiresAt && row.status != Confirmed && row.status != Expired
    ensures (exists stale :: Load(svc, req, row, now, t) == Failing(stale))
            <==> now < row.expiresAt && row.status == Processing && row.updatedAt + svc.staleMinutes <= now
    ensures Load(svc, req, row, now, t).Failing? ==> Load(svc, req, row, now, t).stale == row
    ensures !Load(svc, req, row, now, t).Expiring? && !Load(svc, req, row, now, t).Failing? ==>
              Load(svc, req, row, now, t) == Decide(svc, req, row, t)
  {
    if row.status == Processing && Load(svc, req, row, now, t).Failing? {
      assert Load(svc, req, row, now, t) == Failing(row);
    }
  }

  // ---------------------------------------------------------------- what a step changes

  /** Only a pending write and the worker's two final writes touch the row, the created assignments or the log. */
  lemma OnlyWritesWrite(svc: Service, s: State, step: Step)
    requires !step.WriteStep? && !step.WorkerComplete? && !step.WorkerFail?
    ensures var s' := Apply(svc, s, step);
            s'.row == s.row && s'.effects == s.effects && s'.log == s.log
  {
  }

  /** A request's step changes no other request and not the worker; the worker's changes no request. */
  lemma OwnPartOnly(svc: Service, s: State, step: Step, other: nat)
    ensures var s' := Apply(svc, s, step);
            var own := match step
                       case Arrive(id, _) => Some(id)
                       case LoadStep(id, _, _) => Some(id)
                       case WriteStep(id, _, _) => Some(id)
                       case Abort(id) => Some(id)
                       case _ => None;
            && (own.Some? ==> s'.worker == s.worker)
            && (own != Some(other) ==> (other in s'.threads <==> other in s.threads)
                                       && (other in s.threads ==> s'.threads[other] == s.threads[other]))
            && (other in s.threads && other in s'.threads ==> s'.threads[other].req == s.threads[other].req)
  {
  }

  /** A request arrives under a new number, loads the session once, again after failing it, and may break off any
      time. */
  lemma RequestSteps(svc: Service, s: State, id: nat, req: Request, now: int, t: Tables)
    ensures id !in s.threads ==> Apply(svc, s, Arrive(id, req)).threads == s.threads[id := Thread(req, Arrived)]
    ensures id in s.threads ==> Apply(svc, s, Arrive(id, req)) == s
    ensures id in s.threads ==>
              var th, th' := s.threads[id], Apply(svc, s, LoadStep(id, now, t)).threads[id];
              && (th.phase == Arrived ==> th'.phase == Load(svc, th.req, s.row, now, t))
              && (th.phase == Reloading ==> th'.phase == Decide(svc, th.req, s.row, t))
              && (th.phase != Arrived && th.phase != Reloading ==> th' == th)
    ensures id in s.threads ==> Apply(svc, s, Abort(id)).threads[id].phase == Finished(500)
    ensures id in s.threads && (s.threads[id].phase in {Arrived, Reloading} || s.threads[id].phase.Finished?) ==>
              Apply(svc, s, WriteStep(id, now, t)) == s
  {
  }

  /** The worker starts once, on a session that is processing, and gives up on one that is not; it ends by storing its
      result, or after a crash by recording the failure of a session that is still processing. */
  lemma WorkerSteps(svc: Service, s: State, now: int, next: Revalidated, message: string)
    ensures Apply(svc, s, WorkerLoad).worker
            == (if s.worker != Queued then s.worker else if s.row.status == Processing then Parsing(s.row) else Stopped)
    ensures Apply(svc, s, WorkerReload).worker
            == (if s.worker != Crashed then s.worker
                else if s.row.status == Processing then ReportingFailure(s.row) else Stopped)
    ensures Apply(svc, s, WorkerCrash).worker == if s.worker.Parsing? then Crashed else s.worker
    ensures Apply(svc, s, WorkerDies).worker == if s.worker == NoWorker then NoWorker else Stopped
    ensures s.worker.Parsing? && next.status in {NeedsClarification, Ready, Failed} ==>
              var s' := Apply(svc, s, WorkerComplete(now, next));
              && s'.worker == Stopped && s'.row.status == next.status && s'.row.payload == next.payload
              && s'.row.questions == next.questions && s'.row.revision == s.worker.loaded.revision + 1
              && s'.row.updatedAt == now && s'.row.expiresAt == s.row.expiresAt && s'.effects == s.effects
    ensures s.worker.ReportingFailure? ==>
              var s' := Apply(svc, s, WorkerFail(now, message));
              && s'.worker == Stopped && s'.row.status == Failed && s'.row.questions == []
              && s'.row.payload == s.worker.failed.payload.(error := Some(message))
              && s'.row.revision == s.worker.failed.revision + 1 && s'.effects == s.effects
    ensures !s.worker.Parsing? ==> Apply(svc, s, WorkerComplete(now, next)) == s
    ensures !s.worker.ReportingFailure? ==> Apply(svc, s, WorkerFail(now, message)) == s
  {
  }
}
