/** Concrete interleavings that show where the import protocol's guarantees end. */
module ImportRuns {
  import opened Wrappers
  import opened ImportDraft
  import opened ImportSession
  import opened ImportProtocol

  /** A service that accepts every draft as ready and creates one assignment. */
  function AcceptAll(): Service {
    Service(
      (f, v, it) => Some(it),
      (t, p) => Some(Revalidated(p, [], Ready)),
      (t, p, ids) => Some(Created(p, [1])),
      30)
  }

  function Fresh(status: Status, worker: Worker): State {
    State(Row(status, 1, Payload([Item("a", "one"), Item("b", "one")], false, None), [], 1000, 0), map[], worker, [],
          [])
  }

  lemma {:induction false} ExecSnoc(svc: Service, s: State, steps: seq<Step>, step: Step)
    ensures Exec(svc, s, steps + [step]) == Apply(svc, Exec(svc, s, steps), step)
  {
    assert (steps + [step])[..|steps|] == steps;
  }

  /** Deleting reads the session before a confirm commits and writes after it: the assignments
      exist, the row says expired. */
  lemma ConfirmedThenExpired()
    ensures exists steps ::
              var s := Exec(AcceptAll(), Fresh(Ready, NoWorker), steps);
              s.row.status == Expired && s.effects == [[1]]
  {
    var svc, s0 := AcceptAll(), Fresh(Ready, NoWorker);
    var s := BothLoaded(svc, s0);
    s := BothWritten(svc, s0, s);
    assert exists steps :: Exec(svc, s0, steps) == s;
  }

  /** The confirm creates its assignments, and the delete then overwrites the row it had read before. */
  lemma BothWritten(svc: Service, s0: State, s1: State) returns (s: State)
    requires svc == AcceptAll() && Reaches(svc, s0, s1) && s1.row.status == Ready && s1.row.expiresAt == 1000
    requires s1.threads == map[0 := Thread(Delete, Deleting(s1.row)),
                               1 := Thread(Confirm(None, None), Confirming(s1.row))]
    ensures Reaches(svc, s0, s) && s.row.status == Expired && s.effects == s1.effects + [[1]]
  {
    s := Extend(svc, s0, s1, WriteStep(1, 2, 0));
    assert s.threads[0] == s1.threads[0] && s.effects == s1.effects + [[1]];
    s := Extend(svc, s0, s, WriteStep(0, 3, 0));
  }

  /** A delete and a confirm have read the session, and neither has written. */
  lemma BothLoaded(svc: Service, s0: State) returns (s: State)
    requires svc == AcceptAll() && s0 == Fresh(Ready, NoWorker)
    ensures Reaches(svc, s0, s)
    ensures s == s0.(threads := map[0 := Thread(Delete, Deleting(s0.row)),
                                    1 := Thread(Confirm(None, None), Confirming(s0.row))])
  {
    ReachesStart(svc, s0);
    s := Read(svc, s0, s0, 0, Delete, 1);
    s := Read(svc, s0, s, 1, Confirm(None, None), 1);
  }

  /** Some run leads from s0 to s. */
  ghost predicate Reaches(svc: Service, s0: State, s: State) {
    exists steps :: Exec(svc, s0, steps) == s
  }

  lemma ReachesStart(svc: Service, s0: State)
    ensures Reaches(svc, s0, s0)
  {
    assert Exec(svc, s0, []) == s0;
  }

  lemma Extend(svc: Service, s0: State, s: State, step: Step) returns (s': State)
    requires Reaches(svc, s0, s)
    ensures s' == Apply(svc, s, step) && Reaches(svc, s0, s')
  {
    s' := Apply(svc, s, step);
    var steps :| Exec(svc, s0, steps) == s;
    ExecSnoc(svc, s0, steps, step);
  }

  /** A request arrives and reads the session. */
  lemma Read(svc: Service, s0: State, s1: State, id: nat, req: Request, now: int) returns (s: State)
    requires Reaches(svc, s0, s1) && id !in s1.threads
    ensures Reaches(svc, s0, s)
    ensures s == s1.(threads := s1.threads[id := Thread(req, Load(svc, req, s1.row, now, 0))])
  {
    s := Extend(svc, s0, s1, Arrive(id, req));
    s := Extend(svc, s0, s, LoadStep(id, now, 0));
    assert s.threads == s1.threads[id := Thread(req, Load(svc, req, s1.row, now, 0))];
  }

  /** A confirmed session changes its status exactly through a write planned before the confirm. */
  lemma ConfirmedLeftOnlyByBlindWrite(svc: Service, s: State, step: Step)
    requires WellBehaved(svc) && ConfirmInv(s) && s.row.status == Confirmed
    ensures Apply(svc, s, step).row.status != Confirmed
            <==> (step.WriteStep? && step.id in s.threads
                  && var p := s.threads[step.id].phase;
                     p.Expiring? || p.Failing? || (p.Deleting? && p.found.status != Expired))
  {
    if step.WriteStep? && step.id in s.threads {
      assert PhaseFits(s.threads[step.id]);
    }
  }

  function Rewrite(id: string, body: Json): Request {
    Patch(None, [], [Item(id, body)])
  }

  /** A draft of items "a" and "b" with one of them replaced. */
  function Rewritten(p: Payload, id: string, body: Json): Payload
    requires |p.items| == 2
  {
    p.(items := p.items[(if id == "a" then 0 else 1) := Item(id, body)])
  }

  lemma RewriteResult(row: Row, id: string, body: Json, t: Tables)
    requires Editable(row.status) && |row.payload.items| == 2
    requires row.payload.items[0].clientItemId == "a" && row.payload.items[1].clientItemId == "b"
    requires id == "a" || id == "b"
    ensures PatchPlan(AcceptAll(), Rewrite(id, body), row, t)
            == Ok(Revalidated(Rewritten(row.payload, id, body), [], Ready))
  {
    var items, edits := row.payload.items, [Item(id, body)];
    assert edits[..0] == [];
    assert items[..1][..0] == [];
    assert IndexById(items[..1], id) == if id == "a" then Some(0) else None;
    assert Edits(items, edits) == Ok(items[(if id == "a" then 0 else 1) := Item(id, body)]);
  }

  /** With the worker overwriting a deleted session, a second delete in flight can set the
      revision back and let a patch computed from an old draft through: item "b" loses the
      change that was committed last. */
  lemma LostUpdate()
    ensures exists steps ::
              var s := Exec(AcceptAll(), Fresh(Processing, Queued), steps);
              && |s.log| == 6 && s.log[3].Patched? && s.log[5].Patched?
              && s.log[3].req == Rewrite("b", "two") && s.log[5].req == Rewrite("a", "two")
              && s.row.payload.items == [Item("a", "two"), Item("b", "one")]
              && SerialRun(AcceptAll(), Fresh(Processing, Queued).row, s.log) != Some(Serial(s.row, s.effects))
  {
    var svc, s0 := AcceptAll(), Fresh(Processing, Queued);
    var s := DeletedWhileParsing(svc, s0);
    s := Resurrected(svc, s0, s);
    var row: Row;
    s, row := LostUpdateTail(svc, s0, s, DeletedRow(s0.row));
    NotSerial(s0.row, s);
    assert exists steps :: Exec(svc, s0, steps) == s;
  }

  /** A serial run would have kept the change of item "b". */
  lemma NotSerial(row0: Row, s: State)
    requires |s.log| == 6 && s.log[4].Blind? && s.log[5] == Patched(Rewrite("a", "two"), 0, 6)
    requires Editable(s.log[4].row.status) && s.log[4].row.payload.items == [Item("a", "one"), Item("b", "two")]
    requires s.row.payload.items == [Item("a", "two"), Item("b", "one")]
    ensures SerialRun(AcceptAll(), row0, s.log) != Some(Serial(s.row, s.effects))
  {
    var log, row := s.log, s.log[4].row;
    assert log[..5][..4] == log[..4] && log[..5][4] == log[4];
    var before := SerialRun(AcceptAll(), row0, log[..5]);
    assert before.Some? ==> before.value.row == row;
    RewriteResult(row, "a", "two", 0);
    assert SerialRun(AcceptAll(), row0, log).Some? ==>
             SerialRun(AcceptAll(), row0, log).value.row.payload.items == [Item("a", "two"), Item("b", "two")];
  }

  function DeletedRow(row: Row): Row {
    row.(status := Expired, revision := 2, updatedAt := 1)
  }

  function RevivedRow(row: Row): Row {
    row.(status := Ready, revision := 2, updatedAt := 3)
  }

  /** The session is deleted while the worker parses it. */
  lemma DeletedWhileParsing(svc: Service, s0: State) returns (s: State)
    requires svc == AcceptAll() && s0 == Fresh(Processing, Queued)
    ensures Reaches(svc, s0, s)
    ensures s == State(DeletedRow(s0.row), map[0 := Thread(Delete, Finished(204))], Parsing(s0.row), [],
                       [Blind(DeletedRow(s0.row))])
  {
    s := DeleteWaits(svc, s0);
    s := Extend(svc, s0, s, WriteStep(0, 1, 0));
    assert s.threads == map[0 := Thread(Delete, Finished(204))];
  }

  /** The worker and a delete have both read the session. */
  lemma DeleteWaits(svc: Service, s0: State) returns (s: State)
    requires svc == AcceptAll() && s0 == Fresh(Processing, Queued)
    ensures Reaches(svc, s0, s)
    ensures s == s0.(worker := Parsing(s0.row), threads := map[0 := Thread(Delete, Deleting(s0.row))])
  {
    ReachesStart(svc, s0);
    s := Extend(svc, s0, s0, WorkerLoad);
    s := Read(svc, s0, s, 0, Delete, 1);
  }

  /** A second delete reads the expired session; then the worker stores its editable result. */
  lemma Resurrected(svc: Service, s0: State, s1: State) returns (s: State)
    requires svc == AcceptAll() && s0 == Fresh(Processing, Queued) && Reaches(svc, s0, s1)
    requires s1.row == DeletedRow(s0.row) && s1.threads.Keys == {0} && s1.worker == Parsing(s0.row)
    ensures Reaches(svc, s0, s)
    ensures s == s1.(row := RevivedRow(s0.row), worker := Stopped, log := s1.log + [Blind(RevivedRow(s0.row))],
                     threads := s1.threads[1 := Thread(Delete, Deleting(s1.row))])
  {
    s := Read(svc, s0, s1, 1, Delete, 2);
    s := Extend(svc, s0, s, WorkerComplete(3, Revalidated(s0.row.payload, [], Ready)));
  }

  /** A harmless edit takes the revision to 3, a third client reads the draft, the change that will be lost takes the
      revision to 4, the delete that was read while the session was expired sets it back to 3, and the third client's
      write goes through. */
  lemma LostUpdateTail(svc: Service, s0: State, s1: State, found: Row) returns (s: State, row: Row)
    requires svc == AcceptAll() && Reaches(svc, s0, s1) && s1.threads.Keys == {0, 1}
    requires s1.row.status == Ready && s1.row.revision == 2 && s1.row.expiresAt == 1000
    requires s1.row.payload.items == [Item("a", "one"), Item("b", "one")]
    requires s1.threads[1].phase == Deleting(found) && found.status == Expired && found.revision == 2
    ensures Reaches(svc, s0, s) && s.row.payload.items == [Item("a", "two"), Item("b", "one")]
    ensures row.status == Ready && row.payload.items == [Item("a", "one"), Item("b", "two")]
    ensures s.log == s1.log + [Patched(Rewrite("a", "one"), 0, 4), Patched(Rewrite("b", "two"), 0, 4), Blind(row),
                               Patched(Rewrite("a", "two"), 0, 6)]
  {
    s := PatchWhole(svc, s0, s1, 2, "a", "one");
    var third := s.row;
    s := ReadThenEdited(svc, s0, s);
    s := DeleteAgain(svc, s0, s, found);
    row := s.row;
    s := CommitOld(svc, s0, s, third);
  }

  lemma ReadThenEdited(svc: Service, s0: State, s1: State) returns (s: State)
    requires svc == AcceptAll() && Reaches(svc, s0, s1) && 3 !in s1.threads && 4 !in s1.threads
    requires s1.row.status == Ready && s1.row.expiresAt == 1000 && |s1.row.payload.items| == 2
    requires s1.row.payload.items[0].clientItemId == "a" && s1.row.payload.items[1].clientItemId == "b"
    ensures Reaches(svc, s0, s)
    ensures s == s1.(row := EditedRow(s1.row, "b", "two"), log := s1.log + [Patched(Rewrite("b", "two"), 0, 4)],
                     threads := s1.threads[3 := Thread(Rewrite("a", "two"), Pending(s1.row, "a", "two"))]
                                          [4 := Thread(Rewrite("b", "two"), Finished(200))])
  {
    s := LoadWhole(svc, s0, s1, 3, "a", "two");
    s := PatchWhole(svc, s0, s, 4, "b", "two");
  }

  lemma DeleteAgain(svc: Service, s0: State, s1: State, found: Row) returns (s: State)
    requires Reaches(svc, s0, s1) && 1 in s1.threads
    requires s1.threads[1].phase == Deleting(found) && found.status == Expired
    ensures Reaches(svc, s0, s)
    ensures var row := s1.row.(revision := found.revision + 1, updatedAt := 5);
            s == s1.(row := row, log := s1.log + [Blind(row)],
                     threads := s1.threads[1 := s1.threads[1].(phase := Finished(204))])
  {
    s := Extend(svc, s0, s1, WriteStep(1, 5, 0));
  }

  lemma CommitOld(svc: Service, s0: State, s1: State, base: Row) returns (s: State)
    requires Reaches(svc, s0, s1) && 3 in s1.threads && |base.payload.items| == 2 && CasHolds(s1.row, base)
    requires s1.threads[3] == Thread(Rewrite("a", "two"), Pending(base, "a", "two"))
    ensures Reaches(svc, s0, s) && s.row.payload == Rewritten(base.payload, "a", "two")
    ensures s.log == s1.log + [Patched(Rewrite("a", "two"), 0, 6)]
  {
    s := Extend(svc, s0, s1, WriteStep(3, 6, 0));
  }

  /** The write of such a patch, still to come. */
  function Pending(row: Row, item: string, body: Json): Phase
    requires |row.payload.items| == 2
  {
    Patching(row, Revalidated(Rewritten(row.payload, item, body), [], Ready), 0)
  }

  function EditedRow(row: Row, item: string, body: Json): Row
    requires |row.payload.items| == 2
  {
    row.(payload := Rewritten(row.payload, item, body), questions := [], revision := row.revision + 1, updatedAt := 4)
  }

  /** One patch that has read the session and not yet written. */
  lemma LoadWhole(svc: Service, s0: State, s1: State, id: nat, item: string, body: Json)
    returns (s: State)
    requires svc == AcceptAll() && Reaches(svc, s0, s1) && id !in s1.threads
    requires s1.row.status == Ready && s1.row.expiresAt == 1000 && |s1.row.payload.items| == 2
    requires s1.row.payload.items[0].clientItemId == "a" && s1.row.payload.items[1].clientItemId == "b"
    requires item == "a" || item == "b"
    ensures Reaches(svc, s0, s)
    ensures s == s1.(threads := s1.threads[id := Thread(Rewrite(item, body), Pending(s1.row, item, body))])
  {
    RewriteResult(s1.row, item, body, 0);
    s := Read(svc, s0, s1, id, Rewrite(item, body), 4);
  }

  /** One patch loaded and committed with nothing in between. */
  lemma PatchWhole(svc: Service, s0: State, s1: State, id: nat, item: string, body: Json)
    returns (s: State)
    requires svc == AcceptAll() && Reaches(svc, s0, s1) && id !in s1.threads
    requires s1.row.status == Ready && s1.row.expiresAt == 1000 && |s1.row.payload.items| == 2
    requires s1.row.payload.items[0].clientItemId == "a" && s1.row.payload.items[1].clientItemId == "b"
    requires item == "a" || item == "b"
    ensures Reaches(svc, s0, s)
    ensures s == s1.(row := EditedRow(s1.row, item, body), log := s1.log + [Patched(Rewrite(item, body), 0, 4)],
                     threads := s1.threads[id := Thread(Rewrite(item, body), Finished(200))])
  {
    s := LoadWhole(svc, s0, s1, id, item, body);
    s := Extend(svc, s0, s, WriteStep(id, 4, 0));
    assert s.threads == s1.threads[id := Thread(Rewrite(item, body), Finished(200))];
  }
}
