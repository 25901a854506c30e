/** What holds along every run of the worker lifecycle. */
module LifecycleRuns {
  import opened Results
  import opened Lifecycle

  lemma RestartKeepsInv(s: State, step: Step)
    requires Inv(s) && Enabled(s, step) && step.Restart?
    ensures Inv(Next(s, step))
  {
    var t := Next(s, step);
    forall e | 0 <= e < |t.deletes| ensures DeleteOk(t, t.deletes[e]) {
      assert DeleteOk(s, s.deletes[e]);
    }
  }

  lemma BootStartKeepsInv(s: State, step: Step)
    requires Inv(s) && Enabled(s, step) && step.BootStart?
    ensures Inv(Next(s, step))
  {
  }

  lemma CreateRowKeepsInv(s: State, step: Step)
    requires Inv(s) && Enabled(s, step) && step.CreateRow?
    ensures Inv(Next(s, step))
  {
  }

  lemma CreateStartKeepsInv(s: State, step: Step)
    requires Inv(s) && Enabled(s, step) && step.CreateStart?
    ensures Inv(Next(s, step))
  {
    var t := Next(s, step);
    forall e | 0 <= e < |t.deletes| ensures DeleteOk(t, t.deletes[e]) {
      assert DeleteOk(s, s.deletes[e]);
      assert t.deletes[e] == s.deletes[e];
    }
  }

  lemma WriteFileKeepsInv(s: State, step: Step)
    requires Inv(s) && Enabled(s, step) && step.WriteFile?
    ensures Inv(Next(s, step))
  {
  }

  lemma SaveEmailKeepsInv(s: State, step: Step)
    requires Inv(s) && Enabled(s, step) && step.SaveEmail?
    ensures Inv(Next(s, step))
  {
  }

  lemma ResetRowsKeepsInv(s: State, step: Step)
    requires Inv(s) && Enabled(s, step) && step.ResetRows?
    ensures Inv(Next(s, step))
  {
  }

  lemma ReturnKeepsInv(s: State, step: Step)
    requires Inv(s) && Enabled(s, step) && step.Return?
    ensures Inv(Next(s, step))
  {
  }

  lemma CloseKeepsInv(s: State, step: Step)
    requires Inv(s) && Enabled(s, step) && step.CloseDone?
    ensures Inv(Next(s, step))
  {
  }

  lemma RemoveKeepsInv(s: State, step: Step)
    requires Inv(s) && Enabled(s, step) && step.RemoveEntry?
    ensures Inv(Next(s, step))
  {
  }

  lemma CancelKeepsInv(s: State, step: Step)
    requires Inv(s) && Enabled(s, step) && step.CancelAll?
    ensures Inv(Next(s, step))
  {
  }

  lemma AskKeepsInv(s: State, step: Step)
    requires Inv(s) && Enabled(s, step) && step.DeleteAsk?
    ensures Inv(Next(s, step))
  {
  }

  lemma LookUpKeepsDelete(s: State, d: nat, e: nat)
    requires Inv(s) && Enabled(s, DeleteLookUp(d)) && e < |s.deletes|
    ensures DeleteOk(Next(s, DeleteLookUp(d)), Next(s, DeleteLookUp(d)).deletes[e])
  {
    assert DeleteOk(s, s.deletes[e]);
  }

  lemma LookUpKeepsInv(s: State, step: Step)
    requires Inv(s) && Enabled(s, step) && step.DeleteLookUp?
    ensures Inv(Next(s, step))
  {
    var t := Next(s, step);
    forall e | 0 <= e < |t.deletes| ensures DeleteOk(t, t.deletes[e]) {
      assert DeleteOk(s, s.deletes[e]);
      LookUpKeepsDelete(s, step.d, e);
    }
  }

  lemma WaitedKeepsInv(s: State, step: Step)
    requires Inv(s) && Enabled(s, step) && step.DeleteWaited?
    ensures Inv(Next(s, step))
  {
  }

  lemma DeleteRowKeepsInv(s: State, step: Step)
    requires Inv(s) && Enabled(s, step) && step.DeleteRow?
    ensures Inv(Next(s, step))
  {
  }

  lemma DeleteFilesKeepsInv(s: State, step: Step)
    requires Inv(s) && Enabled(s, step) && step.DeleteFiles?
    ensures Inv(Next(s, step))
  {
  }

  lemma StepKeepsInv(s: State, step: Step)
    requires Inv(s) && Enabled(s, step)
    ensures Inv(Next(s, step))
  {
    match step
    case Restart(_) => RestartKeepsInv(s, step);
    case BootStart(_) => BootStartKeepsInv(s, step);
    case CreateRow(_, _) => CreateRowKeepsInv(s, step);
    case CreateStart(_) => CreateStartKeepsInv(s, step);
    case WriteFile(_, _) => WriteFileKeepsInv(s, step);
    case SaveEmail(_, _) => SaveEmailKeepsInv(s, step);
    case ResetRows(_) => ResetRowsKeepsInv(s, step);
    case Return(_) => ReturnKeepsInv(s, step);
    case CloseDone(_) => CloseKeepsInv(s, step);
    case RemoveEntry(_) => RemoveKeepsInv(s, step);
    case CancelAll => CancelKeepsInv(s, step);
    case DeleteAsk(_) => AskKeepsInv(s, step);
    case DeleteLookUp(_) => LookUpKeepsInv(s, step);
    case DeleteWaited(_) => WaitedKeepsInv(s, step);
    case DeleteRow(_, _) => DeleteRowKeepsInv(s, step);
    case DeleteFiles(_, _) => DeleteFilesKeepsInv(s, step);
  }

  ghost predicate Run(trace: seq<State>, steps: seq<Step>) {
    && |trace| == |steps| + 1 && Initial(trace[0])
    && forall i :: 0 <= i < |steps| ==> Enabled(trace[i], steps[i]) && trace[i + 1] == Next(trace[i], steps[i])
  }

  lemma {:induction false} Safety(trace: seq<State>, steps: seq<Step>, i: nat)
    requires Run(trace, steps) && i < |trace|
    ensures Inv(trace[i])
  {
    if i > 0 {
      Safety(trace, steps, i - 1);
      StepKeepsInv(trace[i - 1], steps[i - 1]);
    }
  }

  /** At most one goroutine is inside run for an account. */
  lemma OneWorkerPerAccount(trace: seq<State>, steps: seq<Step>, i: nat, v: nat, w: nat)
    requires Run(trace, steps) && i < |trace|
    requires At(trace[i], v, Inside) && At(trace[i], w, Inside)
    requires trace[i].table.goroutines[v].id == trace[i].table.goroutines[w].id
    ensures v == w
  {
    Safety(trace, steps, i);
  }

  /** The deferred delete removes exactly the entry of its own goroutine, although it deletes by account. */
  lemma RemovesOwnEntry(trace: seq<State>, steps: seq<Step>, i: nat, w: nat)
    requires Run(trace, steps) && i < |steps| && steps[i] == RemoveEntry(w)
    ensures var before, after := trace[i].table.workers, trace[i + 1].table.workers;
      var id := trace[i].table.goroutines[w].id;
      && id in before && before[id] == w && id !in after
      && forall a :: a in before && a != id ==> a in after && after[a] == before[a]
  {
    Safety(trace, steps, i);
  }

  // ----- stopping -----

  /** A step in which goroutine w writes to the database or to the attachment tree. */
  predicate WritesFor(step: Step, w: nat) {
    match step
    case WriteFile(v, _) => v == w
    case SaveEmail(v, _) => v == w
    case ResetRows(v) => v == w
    case _ => false
  }

  lemma StepKeepsClosed(s: State, step: Step, w: nat)
    requires Enabled(s, step) && At(s, w, Closed)
    ensures At(Next(s, step), w, Closed)
  {
  }

  lemma {:induction false} ClosedStaysClosed(trace: seq<State>, steps: seq<Step>, i: nat, k: nat, w: nat)
    requires Run(trace, steps) && i <= k < |trace| && At(trace[i], w, Closed)
    ensures At(trace[k], w, Closed)
  {
    if i < k {
      ClosedStaysClosed(trace, steps, i, k - 1, w);
      StepKeepsClosed(trace[k - 1], steps[k - 1], w);
    }
  }

  /** Once StopAccount has returned, the worker it observed writes nothing more. */
  lemma StoppedWorkerIsSilent(trace: seq<State>, steps: seq<Step>, i: nat, k: nat, d: nat, w: nat)
    requires Run(trace, steps) && i <= k < |steps|
    requires d < |trace[i].deletes| && Past(trace[i].deletes[d].stage) && trace[i].deletes[d].observed == Some(w)
    ensures !WritesFor(steps[k], w)
  {
    Safety(trace, steps, i);
    assert DeleteOk(trace[i], trace[i].deletes[d]);
    ClosedStaysClosed(trace, steps, i, k, w);
  }

  // ----- deletion is final -----

  lemma {:induction false} DeletedRowStaysAway(trace: seq<State>, steps: seq<Step>, i: nat, k: nat, id: string)
    requires Run(trace, steps) && i <= k < |trace| && id in trace[i].drawn && id !in trace[i].rows
    ensures id in trace[k].drawn && id !in trace[k].rows
  {
    if i < k { DeletedRowStaysAway(trace, steps, i, k - 1, id); }
  }

  /** After the row is deleted no continuation ever holds an email row of the account, whatever races with it. */
  lemma DeletedEmailsStayAway(trace: seq<State>, steps: seq<Step>, i: nat, k: nat, d: nat, e: Item)
    requires Run(trace, steps) && i <= k < |trace|
    requires DeleteAt(trace[i], d, RowDeleted) || DeleteAt(trace[i], d, Succeeded)
    requires e in trace[k].emails
    ensures e.account != trace[i].deletes[d].id
  {
    Safety(trace, steps, i);
    Safety(trace, steps, k);
    assert DeleteOk(trace[i], trace[i].deletes[d]);
    DeletedRowStaysAway(trace, steps, i, k, trace[i].deletes[d].id);
  }

  /** A step that deletes something of the account: its deletion, or its worker at a new UIDVALIDITY. */
  predicate DeletesOf(s: State, step: Step, id: string)
    requires Enabled(s, step)
  {
    match step
    case ResetRows(w) => s.table.goroutines[w].id == id
    case DeleteRow(d, _) => s.deletes[d].id == id
    case DeleteFiles(d, _) => s.deletes[d].id == id
    case _ => false
  }

  /** Whatever happens to other accounts, restarts included, an account keeps its row, its emails and its files. */
  lemma {:induction false} OthersAreKept(trace: seq<State>, steps: seq<Step>, i: nat, k: nat, item: Item)
    requires Run(trace, steps) && i <= k < |trace|
    requires forall h :: i <= h < k ==> !DeletesOf(trace[h], steps[h], item.account)
    ensures item.account in trace[i].rows ==> item.account in trace[k].rows
    ensures item in trace[i].emails ==> item in trace[k].emails
    ensures item in trace[i].files ==> item in trace[k].files
  {
    if i < k {
      OthersAreKept(trace, steps, i, k - 1, item);
      assert !DeletesOf(trace[k - 1], steps[k - 1], item.account);
    }
  }

  lemma {:induction false} SuccessStays(trace: seq<State>, steps: seq<Step>, i: nat, k: nat, d: nat)
    requires Run(trace, steps) && i <= k < |trace| && DeleteAt(trace[i], d, Succeeded)
    ensures d < |trace[k].deletes| && trace[k].deletes[d] == trace[i].deletes[d]
  {
    if i < k { SuccessStays(trace, steps, i, k - 1, d); }
  }

  /** No attachment file of the account reappears if no start of it was due when Delete began. */
  lemma DeletedFilesStayAway(trace: seq<State>, steps: seq<Step>, i: nat, k: nat, d: nat, f: Item)
    requires Run(trace, steps) && i <= k < |trace|
    requires DeleteAt(trace[i], d, Succeeded) && trace[i].deletes[d].settled
    requires f in trace[k].files
    ensures f.account != trace[i].deletes[d].id
  {
    SuccessStays(trace, steps, i, k, d);
    Safety(trace, steps, k);
    assert DeleteOk(trace[k], trace[k].deletes[d]);
  }

  // ----- the race with Create -----

  predicate Path(s: State, steps: seq<Step>, t: State)
    decreases |steps|
  {
    if steps == [] then s == t
    else Enabled(s, steps[0]) && Path(Next(s, steps[0]), steps[1..], t)
  }

  lemma PathStep(s: State, step: Step, rest: seq<Step>, t: State)
    requires Enabled(s, step) && Path(Next(s, step), rest, t)
    ensures Path(s, [step] + rest, t)
  {
    assert ([step] + rest)[1..] == rest;
  }

  /** What a Delete that has stopped nobody does while Create starts the worker. */
  lemma LateStartLeavesFile(s: State, d: nat, c: nat) returns (steps: seq<Step>, t: State)
    requires Inv(s) && DeleteAt(s, d, Stopped) && s.deletes[d].id in s.rows
    requires c < |s.creates| && s.creates[c] == Create(s.deletes[d].id, false)
    ensures Path(s, steps, t) && DeleteAt(t, d, Succeeded) && t.deletes[d].id == s.deletes[d].id
    ensures Item(s.deletes[d].id, 0) in t.files
  {
    var id := s.deletes[d].id;
    var w := |s.table.goroutines|;
    assert id !in s.table.workers;
    var s1 := Next(s, CreateStart(c));
    var s2 := Next(s1, DeleteRow(d, Works));
    var removed := ItemsOf(s2.files, id);
    var s3 := Next(s2, DeleteFiles(d, removed));
    assert At(s3, w, Inside) && s3.table.goroutines[w].id == id;
    t := Next(s3, WriteFile(w, 0));
    PathStep(s3, WriteFile(w, 0), [], t);
    PathStep(s2, DeleteFiles(d, removed), [WriteFile(w, 0)], t);
    PathStep(s1, DeleteRow(d, Works), [DeleteFiles(d, removed)] + [WriteFile(w, 0)], t);
    steps := [DeleteRow(d, Works)] + ([DeleteFiles(d, removed)] + [WriteFile(w, 0)]);
    PathStep(s, CreateStart(c), steps, t);
    steps := [CreateStart(c)] + steps;
  }

  lemma UnsettledDeleteCanLeaveFile(s: State, d: nat, c: nat) returns (steps: seq<Step>, t: State)
    requires Inv(s) && DeleteAt(s, d, Asked) && s.deletes[d].id in s.rows
    requires c < |s.creates| && s.creates[c] == Create(s.deletes[d].id, false)
    ensures Path(s, steps, t) && DeleteAt(t, d, Succeeded) && t.deletes[d].id == s.deletes[d].id
    ensures Item(s.deletes[d].id, 0) in t.files
  {
    assert s.deletes[d].id !in s.table.workers;
    assert DeleteOk(s, s.deletes[d]);
    var s1 := Next(s, DeleteLookUp(d));
    StepKeepsInv(s, DeleteLookUp(d));
    var s2 := Next(s1, DeleteWaited(d));
    StepKeepsInv(s1, DeleteWaited(d));
    steps, t := LateStartLeavesFile(s2, d, c);
    PathStep(s1, DeleteWaited(d), steps, t);
    PathStep(s, DeleteLookUp(d), [DeleteWaited(d)] + steps, t);
    steps := [DeleteLookUp(d)] + ([DeleteWaited(d)] + steps);
  }

  /** A Delete of an identifier that is drawn only afterwards. */
  lemma EarlyDeleteCanLeaveFile(s: State, d: nat) returns (steps: seq<Step>, t: State)
    requires Inv(s) && DeleteAt(s, d, Asked) && s.deletes[d].id !in s.drawn && s.booting == {}
    ensures Path(s, steps, t) && DeleteAt(t, d, Succeeded) && t.deletes[d].id == s.deletes[d].id
    ensures Item(s.deletes[d].id, 0) in t.files
  {
    var create := CreateRow(s.deletes[d].id, Works);
    StepKeepsInv(s, create);
    steps, t := UnsettledDeleteCanLeaveFile(Next(s, create), d, |s.creates|);
    PathStep(s, create, steps, t);
    steps := [create] + steps;
  }

  /** Some continuation lets the Delete succeed and then holds a file of its account. */
  ghost predicate CanLeaveFile(s: State, d: nat, id: string) {
    exists steps: seq<Step>, t: State, f: Item ::
      Path(s, steps, t) && DeleteAt(t, d, Succeeded) && f in t.files && f.account == id
  }

  lemma DeleteKeepsName(s: State, step: Step, d: nat)
    requires Enabled(s, step) && d < |s.deletes|
    ensures d < |Next(s, step).deletes|
    ensures Next(s, step).deletes[d].id == s.deletes[d].id && Next(s, step).deletes[d].settled == s.deletes[d].settled
  {
  }

  lemma {:induction false} SettledLeavesNoFile(s: State, steps: seq<Step>, t: State, d: nat, f: Item)
    requires Inv(s) && Path(s, steps, t) && d < |s.deletes| && s.deletes[d].settled
    requires DeleteAt(t, d, Succeeded) && f in t.files
    ensures f.account != s.deletes[d].id
    decreases |steps|
  {
    if steps == [] {
      assert DeleteOk(s, s.deletes[d]);
    } else {
      StepKeepsInv(s, steps[0]);
      DeleteKeepsName(s, steps[0], d);
      SettledLeavesNoFile(Next(s, steps[0]), steps[1..], t, d, f);
    }
  }

  /** Without a row, a Delete cannot get past the deletion of the row. */
  predicate Hopeless(s: State, d: nat) {
    && d < |s.deletes| && s.deletes[d].id in s.drawn && s.deletes[d].id !in s.rows
    && s.deletes[d].stage != RowDeleted && s.deletes[d].stage != Succeeded
  }

  lemma StepKeepsHopeless(s: State, step: Step, d: nat)
    requires Enabled(s, step) && Hopeless(s, d)
    ensures Hopeless(Next(s, step), d)
  {
  }

  lemma {:induction false} HopelessFails(s: State, steps: seq<Step>, t: State, d: nat)
    requires Path(s, steps, t) && Hopeless(s, d)
    ensures !DeleteAt(t, d, Succeeded)
    decreases |steps|
  {
    if steps != [] {
      StepKeepsHopeless(s, steps[0], d);
      HopelessFails(Next(s, steps[0]), steps[1..], t, d);
    }
  }

  /** What Delete must not find when it begins: an identifier not yet drawn, or a stored account still to be started. */
  predicate StartToCome(s: State, id: string) {
    id !in s.drawn || (id in s.rows && StartDue(s, id))
  }

  lemma StartToComeLeavesFile(s: State, id: string)
    requires Inv(s) && Enabled(s, DeleteAsk(id)) && StartToCome(s, id)
    ensures CanLeaveFile(Next(s, DeleteAsk(id)), |s.deletes|, id)
  {
    var t, d := Next(s, DeleteAsk(id)), |s.deletes|;
    StepKeepsInv(s, DeleteAsk(id));
    var steps, u;
    if id !in s.drawn {
      steps, u := EarlyDeleteCanLeaveFile(t, d);
    } else {
      var c :| 0 <= c < |s.creates| && s.creates[c].id == id && !s.creates[c].returned;
      steps, u := UnsettledDeleteCanLeaveFile(t, d, c);
    }
    assert Path(t, steps, u) && Item(id, 0) in u.files;
  }

  lemma OtherwiseNoFile(s: State, id: string, steps: seq<Step>, u: State, f: Item)
    requires Inv(s) && Enabled(s, DeleteAsk(id)) && !StartToCome(s, id)
    requires Path(Next(s, DeleteAsk(id)), steps, u) && DeleteAt(u, |s.deletes|, Succeeded) && f in u.files
    ensures f.account != id
  {
    var t, d := Next(s, DeleteAsk(id)), |s.deletes|;
    StepKeepsInv(s, DeleteAsk(id));
    if id in s.rows {
      SettledLeavesNoFile(t, steps, u, d, f);
    } else {
      HopelessFails(t, steps, u, d);
    }
  }

  /**
    The exact condition, at the moment Delete begins: some continuation lets it succeed and then holds a
    file of the account if and only if a start of the account is still to come.
   */
  lemma FileFreeExactly(trace: seq<State>, steps: seq<Step>, i: nat, id: string)
    requires Run(trace, steps) && i < |steps| && steps[i] == DeleteAsk(id)
    ensures CanLeaveFile(trace[i + 1], |trace[i].deletes|, id) <==> StartToCome(trace[i], id)
  {
    Safety(trace, steps, i);
    var s := trace[i];
    if StartToCome(s, id) {
      StartToComeLeavesFile(s, id);
    } else if CanLeaveFile(trace[i + 1], |s.deletes|, id) {
      var path: seq<Step>, t: State, f: Item :|
        Path(trace[i + 1], path, t) && DeleteAt(t, |s.deletes|, Succeeded) && f in t.files && f.account == id;
      OtherwiseNoFile(s, id, path, t, f);
    }
  }
}
