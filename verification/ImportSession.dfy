/** One import session row and the atomic reads and writes of the requests that share it
    (backend/routers/bulk_assignment_import.py, lines 63-101 and 220-379; the background worker is
    backend/services/bulk_assignment_import.py, lines 863-908 and 931-943).

    A request reads the row once, decides, and later commits one write. Patch and confirm
    commit through a compare-and-set on (status, revision); every other write is blind: it
    sends the columns the request changed, whatever the row holds by then. */
module ImportSession {
  import opened Wrappers
  import opened ImportDraft

  datatype Status = Draft | Processing | NeedsClarification | Ready | Confirmed | Expired | Failed

  datatype Payload = Payload(items: seq<Item>, weekly: bool, error: Option<string>)

  datatype Row = Row(
    status: Status, revision: int, payload: Payload, questions: seq<Question>,
    expiresAt: int, updatedAt: int)

  datatype Request =
    | Read
    | Patch(clientRevision: Option<int>, answers: seq<Answer>, edits: seq<Item>)
    | Confirm(clientRev: Option<int>, itemIds: Option<seq<string>>)
    | Delete

  /** What confirming created, as the service reports it. */
  type Effects = seq<int>

  /** The other tables of the database at the moment a request looks at them. */
  type Tables = int

  datatype Revalidated = Revalidated(payload: Payload, questions: seq<Question>, status: Status)

  datatype Created = Created(payload: Payload, effects: Effects)

  /** The service functions the router calls, as parameters. None is an HTTP error. */
  datatype Service = Service(
    assign: Assign,
    revalidate: (Tables, Payload) -> Option<Revalidated>,
    create: (Tables, Payload, Option<seq<string>>) -> Option<Created>,
    staleMinutes: int)

  /** revalidate_payload ends with _status_from_summary, which knows only these statuses. */
  predicate SummaryStatus(s: Status) {
    s == NeedsClarification || s == Ready || s == Failed
  }

  ghost predicate WellBehaved(svc: Service) {
    forall t, p :: svc.revalidate(t, p).Some? ==> SummaryStatus(svc.revalidate(t, p).value.status)
  }

  predicate Editable(s: Status) {
    s == Draft || s == NeedsClarification || s == Ready
  }

  predicate Dead(s: Status) {
    s == Confirmed || s == Expired || s == Failed
  }

  const STALE_MESSAGE := "Assignment import processing did not finish. Please retry the upload."

  /** Where a request stands between its atomic database accesses. */
  datatype Phase =
    | Arrived
    | Expiring
    | Failing(stale: Row)
    | Reloading
    | Patching(base: Row, next: Revalidated, tables: Tables)
    | Confirming(claimed: Row)
    | Deleting(found: Row)
    | Finished(code: int)

  // ---------------------------------------------------------------- a request's own decisions

  function PatchPlan(svc: Service, req: Request, row: Row, t: Tables): Result<Revalidated, int>
    requires req.Patch?
  {
    if !Editable(row.status) then Err(409)
    else if req.clientRevision.Some? && req.clientRevision.value != row.revision then Err(409)
    else match Edited(svc.assign, row.questions, row.payload.items, req.answers, req.edits)
      case Err(BadValue) => Err(500)
      case Err(_) => Err(400)
      case Ok(items) =>
        match svc.revalidate(t, row.payload.(items := items))
        case None => Err(404)
        case Some(next) => Ok(next)
  }

  predicate MayConfirm(req: Request, row: Row)
    requires req.Confirm?
  {
    && (row.status == Ready || (row.payload.weekly && row.status == NeedsClarification && req.itemIds.Some?))
    && (req.clientRev.Some? ==> req.clientRev.value == row.revision)
  }

  /** The body of a route once it holds the session it read. */
  function Decide(svc: Service, req: Request, row: Row, t: Tables): Phase {
    match req
    case Read => Finished(200)
    case Patch(_, _, _) =>
      (match PatchPlan(svc, req, row, t)
       case Err(code) => Finished(code)
       case Ok(next) => Patching(row, next, t))
    case Confirm(_, _) => if MayConfirm(req, row) then Confirming(row) else Finished(409)
    case Delete => if row.status != Confirmed then Deleting(row) else Finished(204)
  }

  /** _get_session_or_404: an overdue session is expired, a stale one failed and read again. */
  function Load(svc: Service, req: Request, row: Row, now: int, t: Tables): Phase {
    if row.expiresAt <= now && row.status != Confirmed && row.status != Expired then Expiring
    else if row.status == Processing && row.updatedAt <= now - svc.staleMinutes then Failing(row)
    else Decide(svc, req, row, t)
  }

  // ---------------------------------------------------------------- the writes

  function ExpireRow(row: Row, now: int): Row {
    row.(status := Expired, updatedAt := now)
  }

  function FailStaleRow(row: Row, stale: Row, message: string, now: int): Row {
    row.(payload := stale.payload.(error := Some(message)), status := Failed,
         revision := stale.revision + 1, updatedAt := now)
  }

  /** An unchanged column is not sent: deleting a session read as expired writes its revision only. */
  function DeleteRow(row: Row, found: Row, now: int): Row {
    row.(status := if found.status == Expired then row.status else Expired,
         revision := found.revision + 1, updatedAt := now)
  }

  function PatchRow(row: Row, base: Row, next: Revalidated, now: int): Row {
    row.(payload := next.payload, questions := next.questions, status := next.status,
         revision := base.revision + 1, updatedAt := now)
  }

  function ConfirmRow(row: Row, claimed: Row, payload: Payload, now: int): Row {
    row.(status := Confirmed, revision := claimed.revision + 1, payload := payload, updatedAt := now)
  }

  predicate CasHolds(row: Row, seen: Row) {
    row.status == seen.status && row.revision == seen.revision
  }

  // ---------------------------------------------------------------- the stored row

  /** The table row. Each method is one committed statement or transaction. */
  class SessionRow {
    var status: Status
    var revision: int
    var payload: Payload
    var questions: seq<Question>
    var updatedAt: int
    const expiresAt: int

    function View(): Row
      reads this
    {
      Row(status, revision, payload, questions, expiresAt, updatedAt)
    }

    constructor (row: Row)
      ensures View() == row
    {
      status, revision, payload := row.status, row.revision, row.payload;
      questions, expiresAt, updatedAt := row.questions, row.expiresAt, row.updatedAt;
    }

    method Expire(now: int)
      modifies this
      ensures View() == ExpireRow(old(View()), now)
      ensures status == Expired && updatedAt == now
      ensures revision == old(revision) && payload == old(payload) && questions == old(questions)
    {
      status := Expired;
      updatedAt := now;
    }

    method FailStale(stale: Row, message: string, now: int)
      modifies this
      ensures View() == FailStaleRow(old(View()), stale, message, now)
      ensures status == Failed && revision == stale.revision + 1 && updatedAt == now && questions == old(questions)
      ensures payload.items == stale.payload.items && payload.weekly == stale.payload.weekly
      ensures payload.error == Some(message)
    {
      payload := stale.payload.(error := Some(message));
      status := Failed;
      revision := stale.revision + 1;
      updatedAt := now;
    }

    method MarkDeleted(found: Row, now: int)
      modifies this
      ensures View() == DeleteRow(old(View()), found, now)
      ensures status == (if found.status == Expired then old(status) else Expired)
      ensures revision == found.revision + 1 && updatedAt == now
      ensures payload == old(payload) && questions == old(questions)
    {
      if found.status != Expired {
        status := Expired;
      }
      revision := found.revision + 1;
      updatedAt := now;
    }

    /** UPDATE ... WHERE revision = and status =, with its row count. */
    method CommitPatch(base: Row, next: Revalidated, now: int) returns (rowcount: nat)
      modifies this
      ensures rowcount == if CasHolds(old(View()), base) then 1 else 0
      ensures View() == if rowcount == 1 then PatchRow(old(View()), base, next, now) else old(View())
      ensures rowcount == 1 <==> old(status) == base.status && old(revision) == base.revision
      ensures rowcount == 1 ==> payload == next.payload && questions == next.questions && status == next.status
                                && revision == base.revision + 1 && updatedAt == now
    {
      rowcount := 0;
      if revision == base.revision && status == base.status {
        payload, questions, status := next.payload, next.questions, next.status;
        revision := base.revision + 1;
        updatedAt := now;
        rowcount := 1;
      }
    }

    /** Claim, create and commit in one transaction; any failure rolls the claim back. */
    method CommitConfirm(svc: Service, claimed: Row, itemIds: Option<seq<string>>, t: Tables, now: int)
      returns (effects: Option<Effects>)
      modifies this
      ensures var made := svc.create(t, claimed.payload, itemIds);
              if CasHolds(old(View()), claimed) && made.Some?
              then effects == Some(made.value.effects)
                   && View() == ConfirmRow(old(View()), claimed, made.value.payload, now)
              else effects == None && View() == old(View())
      ensures effects.Some? <==> old(status) == claimed.status && old(revision) == claimed.revision
                                 && svc.create(t, claimed.payload, itemIds).Some?
      ensures effects.Some? ==>
                status == Confirmed && revision == claimed.revision + 1 && updatedAt == now
                && questions == old(questions)
                && svc.create(t, claimed.payload, itemIds) == Some(Created(payload, effects.value))
    {
      if revision != claimed.revision || status != claimed.status {
        return None;
      }
      var before := status;
      status := Confirmed;
      var made := svc.create(t, claimed.payload, itemIds);
      if made.None? {
        status := before;
        return None;
      }
      revision := claimed.revision + 1;
      payload := made.value.payload;
      updatedAt := now;
      return Some(made.value.effects);
    }

    /** complete_processing_session's final write: no condition on the row. */
    method CompleteProcessing(loaded: Row, next: Revalidated, now: int)
      modifies this
      ensures View() == PatchRow(old(View()), loaded, next, now)
      ensures payload == next.payload && questions == next.questions && status == next.status
      ensures revision == loaded.revision + 1 && updatedAt == now
    {
      status, payload, questions := next.status, next.payload, next.questions;
      revision := loaded.revision + 1;
      updatedAt := now;
    }

    /** fail_processing_session's write: no condition on the row either. */
    method FailProcessing(failed: Row, message: string, now: int)
      modifies this
      ensures View() == FailStaleRow(old(View()), failed, message, now).(questions := [])
      ensures status == Failed && revision == failed.revision + 1 && updatedAt == now && questions == []
      ensures payload.items == failed.payload.items && payload.weekly == failed.payload.weekly
      ensures payload.error == Some(message)
    {
      FailStale(failed, message, now);
      questions := [];
    }
  }
}
