/** The protocol's writes, performed on the stored row
    (backend/routers/bulk_assignment_import.py, lines 77-100, 274-291, 316-360 and 375-379;
    backend/services/bulk_assignment_import.py, lines 883-893 and 899-908). */
module ImportRequests {
  import opened Wrappers
  import opened ImportSession
  import opened ImportProtocol

  /** One request's pending write, as one statement or transaction on the row. The state is what the
      protocol makes of it. */
  method PerformWrite(svc: Service, stored: SessionRow, ghost s: State, id: nat, th: Thread, now: int, t: Tables)
      returns (phase: Phase, made: Option<Effects>)
    requires id in s.threads && s.threads[id] == th && stored.View() == s.row
    requires th.phase.Confirming? ==> th.req.Confirm?
    modifies stored
    ensures stored.View() == Write(svc, s, id, now, t).row
    ensures phase == Write(svc, s, id, now, t).threads[id].phase
    ensures Write(svc, s, id, now, t).effects == s.effects + if made.Some? then [made.value] else []
    ensures made.Some? ==> th.phase.Confirming?
    ensures th.phase.Failing? ==>
              stored.payload.error == Some("Assignment import processing did not finish. Please retry the upload.")
    ensures match th.phase
            case Expiring => phase == Finished(410)
            case Failing(_) => phase == Reloading
            case Deleting(_) => phase == Finished(204)
            case Patching(base, _, _) =>
              phase == Finished(if s.row.status == base.status && s.row.revision == base.revision then 200 else 409)
            case Confirming(_) => phase == Finished(if made.Some? then 201 else 409)
            case _ => phase == th.phase && stored.View() == old(stored.View())
  {
    phase, made := th.phase, None;
    match th.phase
    case Expiring =>
      stored.Expire(now);
      phase := Finished(410);
    case Failing(stale) =>
      stored.FailStale(stale, STALE_MESSAGE, now);
      phase := Reloading;
    case Deleting(found) =>
      stored.MarkDeleted(found, now);
      phase := Finished(204);
    case Patching(base, next, _) =>
      var rowcount := stored.CommitPatch(base, next, now);
      phase := Finished(if rowcount == 1 then 200 else 409);
    case Confirming(claimed) =>
      made := stored.CommitConfirm(svc, claimed, th.req.itemIds, t, now);
      phase := Finished(if made.Some? then 201 else 409);
    case _ =>
  }

  /** The worker stores its result over whatever the row holds. */
  method PerformWorkerComplete(svc: Service, stored: SessionRow, ghost s: State, loaded: Row, next: Revalidated,
                               now: int)
    requires s.worker == Parsing(loaded) && SummaryStatus(next.status) && stored.View() == s.row
    modifies stored
    ensures stored.View() == Apply(svc, s, WorkerComplete(now, next)).row
  {
    stored.CompleteProcessing(loaded, next, now);
  }

  /** The worker records its failure over whatever the row holds. */
  method PerformWorkerFail(svc: Service, stored: SessionRow, ghost s: State, failed: Row, message: string, now: int)
    requires s.worker == ReportingFailure(failed) && stored.View() == s.row
    modifies stored
    ensures stored.View() == Apply(svc, s, WorkerFail(now, message)).row
  {
    stored.FailProcessing(failed, message, now);
  }
}
