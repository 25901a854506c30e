/**
  Worker goroutines behind the mutex-guarded map, and the account creations and deletions that race
  with them. Every critical section and every database or file operation is one atomic step.
 */
module Lifecycle {
  import opened Results

  // ----- the worker table -----

  /** Inside run; run has returned; the map entry is deleted; done is closed. */
  datatype Stage = Inside | Returned | Removed | Closed

  datatype Goroutine = Goroutine(id: string, stage: Stage, cancelled: bool)

  /** Manager.workers, and every goroutine ever started. */
  datatype Table = Table(workers: map<string, nat>, goroutines: seq<Goroutine>)

  /** StartAccount: a new goroutine, unless the map has an entry. */
  function Started(t: Table, id: string): Table {
    if id in t.workers then t
    else Table(t.workers[id := |t.goroutines|], t.goroutines + [Goroutine(id, Inside, false)])
  }

  function AtStage(t: Table, w: nat, stage: Stage): Table
    requires w < |t.goroutines|
  {
    t.(goroutines := t.goroutines[w := t.goroutines[w].(stage := stage)])
  }

  /** The deferred delete(m.workers, id): by account, not by goroutine. */
  function EntryRemoved(t: Table, w: nat): Table
    requires w < |t.goroutines|
  {
    AtStage(t, w, Removed).(workers := map a | a in t.workers && a != t.goroutines[w].id :: t.workers[a])
  }

  function Cancelled(t: Table, w: nat): Table
    requires w < |t.goroutines|
  {
    t.(goroutines := t.goroutines[w := t.goroutines[w].(cancelled := true)])
  }

  predicate Alive(g: Goroutine) { g.stage == Inside || g.stage == Returned }

  /** Goroutines that have not left the map are exactly the map's entries. */
  ghost predicate TableOk(t: Table) {
    && (forall w :: 0 <= w < |t.goroutines| && Alive(t.goroutines[w]) ==>
         t.goroutines[w].id in t.workers && t.workers[t.goroutines[w].id] == w)
    && (forall a :: a in t.workers ==>
         t.workers[a] < |t.goroutines| && t.goroutines[t.workers[a]].id == a && Alive(t.goroutines[t.workers[a]]))
  }

  /** The account's worker is cancelled, gone from the map and closed; all others are as they were. */
  ghost predicate WorkerGone(before: Table, after: Table, id: string) {
    && id !in after.workers
    && (forall a :: a != id ==> (a in after.workers <==> a in before.workers))
    && (forall a :: a in after.workers ==> after.workers[a] == before.workers[a])
    && |after.goroutines| == |before.goroutines|
    && (forall w :: 0 <= w < |after.goroutines| ==>
         after.goroutines[w] ==
           if id in before.workers && before.workers[id] == w then Goroutine(id, Closed, true) else before.goroutines[w])
    && (forall w :: 0 <= w < |after.goroutines| && after.goroutines[w].id == id ==> !Alive(after.goroutines[w]))
  }

  lemma ReturnKeepsTable(t: Table, w: nat)
    requires TableOk(t) && w < |t.goroutines| && Alive(t.goroutines[w])
    ensures TableOk(AtStage(t, w, Returned))
  {
  }

  lemma CloseKeepsTable(t: Table, w: nat)
    requires TableOk(t) && w < |t.goroutines| && !Alive(t.goroutines[w])
    ensures TableOk(AtStage(t, w, Closed))
  {
  }

  class Manager {
    var workers: map<string, nat>
    var goroutines: seq<Goroutine>

    function Snapshot(): Table
      reads this
    {
      Table(workers, goroutines)
    }

    constructor ()
      ensures Snapshot() == Table(map[], []) && TableOk(Snapshot())
    {
      workers, goroutines := map[], [];
    }

    method StartAccount(id: string)
      requires TableOk(Snapshot())
      modifies this
      ensures Snapshot() == Started(old(Snapshot()), id) && TableOk(Snapshot())
      ensures id in old(workers) ==> workers == old(workers) && goroutines == old(goroutines)
      ensures id !in old(workers) ==>
        workers == old(workers)[id := |old(goroutines)|] && goroutines == old(goroutines) + [Goroutine(id, Inside, false)]
    {
      if id in workers { return; }
      workers := workers[id := |goroutines|];
      goroutines := goroutines + [Goroutine(id, Inside, false)];
    }

    /** The critical section of StopAccount, and the cancellation after it. */
    method LookUpAndCancel(id: string) returns (observed: Option<nat>)
      requires TableOk(Snapshot())
      modifies this
      ensures observed == if id in old(workers) then Some(old(workers)[id]) else None
      ensures Snapshot() == if observed.Some? then Cancelled(old(Snapshot()), observed.value) else old(Snapshot())
      ensures TableOk(Snapshot())
    {
      if id !in workers { return None; }
      var w := workers[id];
      goroutines := goroutines[w := goroutines[w].(cancelled := true)];
      return Some(w);
    }

    /** The deferred delete of goroutine w removes its own entry and no other. */
    method RemoveEntry(w: nat)
      requires TableOk(Snapshot()) && w < |goroutines| && goroutines[w].stage == Returned
      modifies this
      ensures Snapshot() == EntryRemoved(old(Snapshot()), w) && TableOk(Snapshot())
      ensures forall a :: a in workers <==> a in old(workers) && old(workers)[a] != w
      ensures forall a :: a in workers ==> workers[a] == old(workers)[a]
      ensures goroutines == old(goroutines)[w := old(goroutines)[w].(stage := Removed)]
    {
      var id := goroutines[w].id;
      workers := map a | a in workers && a != id :: workers[a];
      goroutines := goroutines[w := goroutines[w].(stage := Removed)];
    }

    /** What a worker does once it leaves run: its deferred calls remove the map entry and close done. */
    method Finish(w: nat)
      requires TableOk(Snapshot()) && w < |goroutines| && Alive(goroutines[w])
      modifies this
      ensures TableOk(Snapshot())
      ensures goroutines == old(goroutines)[w := old(goroutines)[w].(stage := Closed)]
      ensures old(goroutines)[w].id !in workers
      ensures forall a :: a != old(goroutines)[w].id ==>
        (a in workers <==> a in old(workers)) && (a in workers ==> workers[a] == old(workers)[a])
    {
      ReturnKeepsTable(Snapshot(), w);
      goroutines := goroutines[w := goroutines[w].(stage := Returned)];
      RemoveEntry(w);
      CloseKeepsTable(Snapshot(), w);
      goroutines := goroutines[w := goroutines[w].(stage := Closed)];
    }

    /**
      StopAccount when nothing interferes: the wait for done lasts until the observed worker has left
      run and finished.
     */
    method StopAccount(id: string)
      requires TableOk(Snapshot())
      modifies this
      ensures TableOk(Snapshot())
      ensures WorkerGone(old(Snapshot()), Snapshot(), id)
    {
      var observed := LookUpAndCancel(id);
      if observed.Some? { Finish(observed.value); }
    }
  }

  // ----- creations, deletions and what the workers write -----

  /** An email row or an attachment file of an account. */
  datatype Item = Item(account: string, n: nat)

  datatype DeleteStage = Asked | Waiting | Stopped | RowDeleted | Succeeded | Failed

  /** One call of Service.Delete; settled records whether no start of the account was due when it began. */
  datatype Delete = Delete(id: string, observed: Option<nat>, stage: DeleteStage, settled: bool)

  /** One call of Service.Create after its row is in: StartAccount is due until it has returned. */
  datatype Create = Create(id: string, returned: bool)

  datatype State = State(
    table: Table,
    rows: set<string>,       // account rows
    drawn: set<string>,      // identifiers handed out by newID
    booting: set<string>,    // accounts that Manager.Start has listed and not yet started
    emails: set<Item>,
    files: set<Item>,
    creates: seq<Create>,
    deletes: seq<Delete>)

  datatype Step =
    | Restart(listed: set<string>)
    | BootStart(id: string)
    | CreateRow(id: string, fault: Fault)
    | CreateStart(c: nat)
    | WriteFile(w: nat, n: nat)
    | SaveEmail(w: nat, n: nat)
    | ResetRows(w: nat)
    | Return(w: nat)
    | RemoveEntry(w: nat)
    | CloseDone(w: nat)
    | CancelAll
    | DeleteAsk(id: string)
    | DeleteLookUp(d: nat)
    | DeleteWaited(d: nat)
    | DeleteRow(d: nat, fault: Fault)
    | DeleteFiles(d: nat, removed: set<Item>)

  predicate At(s: State, w: nat, stage: Stage) {
    w < |s.table.goroutines| && s.table.goroutines[w].stage == stage
  }

  predicate DeleteAt(s: State, d: nat, stage: DeleteStage) {
    d < |s.deletes| && s.deletes[d].stage == stage
  }

  function ItemsOf(items: set<Item>, id: string): set<Item> {
    set f | f in items && f.account == id
  }

  /**
    Requests are served once Manager.Start has returned; newID never repeats an identifier. The process may
    end and start again at any time, and then lists stored accounts.
   */
  predicate Enabled(s: State, step: Step) {
    match step
    case Restart(listed) => listed <= s.rows
    case BootStart(id) => id in s.booting
    case CreateRow(id, _) => s.booting == {} && id !in s.drawn
    case CreateStart(c) => c < |s.creates| && !s.creates[c].returned
    case WriteFile(w, _) => At(s, w, Inside)
    case SaveEmail(w, _) => At(s, w, Inside)
    case ResetRows(w) => At(s, w, Inside)
    case Return(w) => At(s, w, Inside)
    case RemoveEntry(w) => At(s, w, Returned)
    case CloseDone(w) => At(s, w, Removed)
    case CancelAll => true
    case DeleteAsk(_) => s.booting == {}
    case DeleteLookUp(d) => DeleteAt(s, d, Asked)
    case DeleteWaited(d) => DeleteAt(s, d, Waiting) &&
      (s.deletes[d].observed.Some? ==> At(s, s.deletes[d].observed.value, Closed))
    case DeleteRow(d, _) => DeleteAt(s, d, Stopped)
    case DeleteFiles(d, removed) => DeleteAt(s, d, RowDeleted) && removed <= ItemsOf(s.files, s.deletes[d].id)
  }

  /** Some call that is still to come will start the account. */
  predicate StartDue(s: State, id: string) {
    id in s.booting || exists c :: 0 <= c < |s.creates| && s.creates[c].id == id && !s.creates[c].returned
  }

  /** The process has ended: its map is gone and no goroutine runs any more. */
  function AllClosed(t: Table): Table {
    Table(map[], seq(|t.goroutines|, i requires 0 <= i < |t.goroutines| => t.goroutines[i].(stage := Closed)))
  }

  /** Deletions that had not returned never will. */
  function Interrupted(deletes: seq<Delete>): seq<Delete> {
    seq(|deletes|, i requires 0 <= i < |deletes| =>
      if deletes[i].stage == Succeeded then deletes[i] else deletes[i].(stage := DeleteStage.Failed))
  }

  function Moved(s: State, d: nat, stage: DeleteStage): State
    requires d < |s.deletes|
  {
    s.(deletes := s.deletes[d := s.deletes[d].(stage := stage)])
  }

  function Next(s: State, step: Step): State
    requires Enabled(s, step)
  {
    match step
    case Restart(listed) =>
      s.(table := AllClosed(s.table), booting := listed, creates := [], deletes := Interrupted(s.deletes))
    case BootStart(id) => s.(table := Started(s.table, id), booting := s.booting - {id})
    case CreateRow(id, fault) =>
      s.(rows := if fault == FailsBefore then s.rows else s.rows + {id}, drawn := s.drawn + {id},
         creates := if fault == Works then s.creates + [Create(id, false)] else s.creates)
    case CreateStart(c) =>
      s.(table := Started(s.table, s.creates[c].id), creates := s.creates[c := s.creates[c].(returned := true)])
    case WriteFile(w, n) => s.(files := s.files + {Item(s.table.goroutines[w].id, n)})
    case SaveEmail(w, n) =>
      if s.table.goroutines[w].id in s.rows then s.(emails := s.emails + {Item(s.table.goroutines[w].id, n)}) else s
    case ResetRows(w) =>
      s.(emails := s.emails - ItemsOf(s.emails, s.table.goroutines[w].id),
         files := s.files - ItemsOf(s.files, s.table.goroutines[w].id))
    case Return(w) => s.(table := AtStage(s.table, w, Returned))
    case RemoveEntry(w) => s.(table := EntryRemoved(s.table, w))
    case CloseDone(w) => s.(table := AtStage(s.table, w, Closed))
    case CancelAll =>
      s.(table := s.table.(goroutines :=
        seq(|s.table.goroutines|, i requires 0 <= i < |s.table.goroutines| => s.table.goroutines[i].(cancelled := true))))
    case DeleteAsk(id) =>
      s.(deletes := s.deletes + [Delete(id, None, Asked, id in s.drawn && !StartDue(s, id))])
    case DeleteLookUp(d) =>
      var id := s.deletes[d].id;
      if id in s.table.workers && s.table.workers[id] < |s.table.goroutines| then
        var w := s.table.workers[id];
        s.(table := Cancelled(s.table, w), deletes := s.deletes[d := s.deletes[d].(observed := Some(w), stage := Waiting)])
      else Moved(s, d, Waiting)
    case DeleteWaited(d) => Moved(s, d, Stopped)
    case DeleteRow(d, fault) =>
      var id := s.deletes[d].id;
      var after :=
        if fault == FailsBefore || id !in s.rows then s
        else s.(rows := s.rows - {id}, emails := s.emails - ItemsOf(s.emails, id));
      Moved(after, d, if fault == Works && id in s.rows then RowDeleted else DeleteStage.Failed)
    case DeleteFiles(d, removed) =>
      var id := s.deletes[d].id;
      Moved(s, d, if removed == ItemsOf(s.files, id) then Succeeded else Failed).(files := s.files - removed)
  }

  predicate Initial(s: State) {
    && s.table == Table(map[], []) && s.creates == [] && s.deletes == []
    && s.rows <= s.drawn && s.booting <= s.rows
    && forall e :: e in s.emails ==> e.account in s.rows
  }

  // ----- the invariant -----

  /** No goroutine of the account is inside run or in the map, and none will be. */
  predicate Quiet(s: State, id: string) {
    && id in s.drawn && !StartDue(s, id)
    && forall w :: 0 <= w < |s.table.goroutines| && s.table.goroutines[w].id == id ==> !Alive(s.table.goroutines[w])
  }

  ghost predicate RowsOk(s: State) {
    && s.rows <= s.drawn && s.booting <= s.drawn
    && (forall e :: e in s.emails ==> e.account in s.rows)
    && (forall c :: 0 <= c < |s.creates| ==> s.creates[c].id in s.drawn)
  }

  /** A created account has no worker before its Create starts one. */
  ghost predicate CreatesOk(s: State) {
    && (forall c, e :: 0 <= c < e < |s.creates| ==> s.creates[c].id != s.creates[e].id)
    && (forall c, w :: 0 <= c < |s.creates| && !s.creates[c].returned && 0 <= w < |s.table.goroutines| ==>
         s.table.goroutines[w].id != s.creates[c].id)
    && (forall c :: 0 <= c < |s.creates| ==> s.creates[c].id !in s.booting)
    && (forall w :: 0 <= w < |s.table.goroutines| ==> s.table.goroutines[w].id in s.drawn)
  }

  predicate Past(stage: DeleteStage) { stage == Stopped || stage == RowDeleted || stage == Succeeded }

  predicate DeleteOk(s: State, d: Delete) {
    && (d.stage == RowDeleted || d.stage == Succeeded ==> d.id in s.drawn && d.id !in s.rows)
    && (d.observed.Some? ==> d.observed.value < |s.table.goroutines| && s.table.goroutines[d.observed.value].id == d.id)
    && (d.observed.Some? && Past(d.stage) ==> s.table.goroutines[d.observed.value].stage == Closed)
    && (d.settled && d.stage != DeleteStage.Failed ==> d.id in s.drawn && !StartDue(s, d.id))
    && (d.settled && d.stage == Waiting ==>
         forall w :: 0 <= w < |s.table.goroutines| && s.table.goroutines[w].id == d.id && Alive(s.table.goroutines[w]) ==>
           d.observed == Some(w))
    && (d.settled && Past(d.stage) ==> Quiet(s, d.id))
    && (d.settled && d.stage == Succeeded ==> forall f :: f in s.files ==> f.account != d.id)
  }

  ghost predicate Inv(s: State) {
    && TableOk(s.table) && RowsOk(s) && CreatesOk(s)
    && forall d :: 0 <= d < |s.deletes| ==> DeleteOk(s, s.deletes[d])
  }
}
