/**
  Attachment rows against attachment files: workers that write files and then save rows, UIDVALIDITY
  resets and account deletions that drop rows and then remove trees, and crashes between any two steps.
 */
module Attachments {
  import opened Results
  import opened Store
  import opened TimeText

  /** What the worker of an account is doing with the attachment tree. */
  datatype Job =
    | Parsing(key: Key, done: nat)       // attachments 1 to done are written
    | Copying(key: Key, index: nat)      // attachment index is open and truncated
    | Clearing                           // rows reset, obsolete tree being removed

  datatype State = State(
    db: Database,
    files: set<Path>,
    jobs: map<string, Job>,
    deleted: set<string>)

  datatype Step =
    | CreateAccount(id: string)
    | StartMessage(key: Key)
    | OpenFile(account: string)
    | CopyDone(account: string)
    | CopyFails(account: string)
    | Abandon(account: string)
    | SaveMessage(account: string, receivedAt: Instant, sentAt: Option<Instant>, fault: Fault)
    | ResetRows(account: string, validity: uint32, fault: Fault)
    | ClearTree(account: string, removed: set<Path>, finished: bool)
    | MoveCursor(account: string, validity: uint32, lastUid: uint32)
    | DeleteRow(id: string)
    | RemoveTree(id: string, removed: set<Path>)
    | Crash

  function Without(jobs: map<string, Job>, account: string): map<string, Job> {
    map a | a in jobs && a != account :: jobs[a]
  }

  predicate Within(files: set<Path>, account: string) { forall p :: p in files ==> p.account == account }

  predicate JobIs(s: State, account: string, parsing: bool) {
    account in s.jobs && (if parsing then s.jobs[account].Parsing? else s.jobs[account].Copying?)
  }

  /** A worker has read the account's row, which may have been deleted since. */
  predicate Known(s: State, account: string) { account in s.db.accounts || account in s.deleted }

  predicate Enabled(s: State, step: Step) {
    match step
    case CreateAccount(id) => id !in s.deleted && id !in s.db.accounts
    case StartMessage(key) => key.account !in s.jobs && Known(s, key.account)
    case OpenFile(a) => JobIs(s, a, true)
    case CopyDone(a) => JobIs(s, a, false)
    case CopyFails(a) => JobIs(s, a, false)
    case Abandon(a) => JobIs(s, a, true)
    case SaveMessage(a, _, _, _) => JobIs(s, a, true)
    case ResetRows(a, _, _) => a !in s.jobs && Known(s, a)
    case ClearTree(a, removed, _) => a in s.jobs && s.jobs[a].Clearing? && Within(removed, a)
    case MoveCursor(_, _, _) => true
    case DeleteRow(id) => id in s.db.accounts
    case RemoveTree(id, removed) => id in s.deleted && Within(removed, id)
    case Crash => true
  }

  function Next(s: State, step: Step): State
    requires Enabled(s, step)
  {
    match step
    case CreateAccount(id) => s.(db := InsertAccount(s.db, id).value)
    case StartMessage(key) => s.(jobs := s.jobs[key.account := Parsing(key, 0)])
    case OpenFile(a) =>
      var job := s.jobs[a];
      s.(files := s.files + {AttachmentOf(job.key, job.done + 1).path}, jobs := s.jobs[a := Copying(job.key, job.done + 1)])
    case CopyDone(a) => s.(jobs := s.jobs[a := Parsing(s.jobs[a].key, s.jobs[a].index)])
    case CopyFails(a) =>
      s.(files := s.files - {AttachmentOf(s.jobs[a].key, s.jobs[a].index).path}, jobs := Without(s.jobs, a))
    case Abandon(a) => s.(jobs := Without(s.jobs, a))
    case SaveMessage(a, receivedAt, sentAt, fault) =>
      var email := EmailWith(s.jobs[a].key, receivedAt, sentAt, s.jobs[a].done);
      s.(db := Committed(s.db, SaveEmail(s.db, email).0, fault), jobs := Without(s.jobs, a))
    case ResetRows(a, validity, fault) =>
      s.(db := Committed(s.db, ResetUidValidity(s.db, a, validity), fault),
         jobs := if fault == Works then s.jobs[a := Clearing] else s.jobs)
    case ClearTree(a, removed, finished) =>
      s.(files := s.files - removed, jobs := if finished then Without(s.jobs, a) else s.jobs)
    case MoveCursor(a, validity, lastUid) => s.(db := UpdateCursor(s.db, a, validity, lastUid))
    case DeleteRow(id) => s.(db := DeleteAccount(s.db, id).value, deleted := s.deleted + {id})
    case RemoveTree(id, removed) => s.(files := s.files - removed)
    case Crash => s.(jobs := map[])
  }

  predicate Initial(s: State) {
    s.db == Database(map[], map[], map[]) && s.files == {} && s.jobs == map[] && s.deleted == {}
  }

  // ----- the property and its invariant -----

  /** Every attachment row's path exists. */
  predicate RowsHaveFiles(s: State) {
    forall x :: x in s.db.attachments ==> s.db.attachments[x].path in s.files
  }

  predicate Written(s: State, k: Key, n: nat) {
    forall i: nat :: 1 <= i <= n ==> AttachmentOf(k, i).path in s.files
  }

  ghost predicate JobOk(s: State, a: string) {
    a in s.jobs ==>
      match s.jobs[a]
      case Parsing(k, n) => k.account == a && (a in s.db.accounts ==> Written(s, k, n))
      case Copying(k, n) => k.account == a && n > 0 && (a in s.db.accounts ==> Written(s, k, n))
      case Clearing => forall x :: x in s.db.attachments ==> s.db.attachments[x].path.account != a
  }

  /** All but the property itself; this part holds in every reachable state. */
  ghost predicate Base(s: State) {
    && Consistent(s.db)
    && (forall a :: a in s.jobs ==> JobOk(s, a) && Known(s, a))
    && (forall id :: id in s.deleted ==> id !in s.db.accounts)
  }

  /** A failed copy removes the file: fatal when a stored row names that path. */
  predicate RemovesStored(s: State, step: Step)
    requires Enabled(s, step)
  {
    step.CopyFails? &&
      var p := AttachmentOf(s.jobs[step.account].key, s.jobs[step.account].index).path;
      exists x :: x in s.db.attachments && s.db.attachments[x].path == p
  }

  /** An attachment row lies under its account, and that account exists. */
  lemma RowPath(db: Database, x: string)
    requires Consistent(db) && x in db.attachments
    ensures db.attachments[x].path.account in db.accounts
    ensures exists i: nat :: db.attachments[x].path == AttachmentOf(db.emails[db.attachments[x].email].key, i).path
    ensures db.attachments[x].path.account == db.emails[db.attachments[x].email].key.account
  {
    var row := db.attachments[x];
    var i: nat :| AttachmentOf(db.emails[row.email].key, i) == Attachment(x, row.path);
    assert db.attachments[x].path == AttachmentOf(db.emails[row.email].key, i).path;
  }

  /** A job is untouched by changes that add no row under its account and remove none of its files. */
  lemma JobStays(s: State, s': State, a: string)
    requires JobOk(s, a) && a in s.jobs && a in s'.jobs && s'.jobs[a] == s.jobs[a]
    requires s'.files == s.files && (a in s'.db.accounts ==> a in s.db.accounts)
    requires s.jobs[a].Clearing? ==> forall x :: x in s'.db.attachments && s'.db.attachments[x].path.account == a ==>
      x in s.db.attachments && s.db.attachments[x] == s'.db.attachments[x]
    ensures JobOk(s', a)
  {
    if !s.jobs[a].Clearing? && a in s'.db.accounts {
      var n := if s.jobs[a].Parsing? then s.jobs[a].done else s.jobs[a].index;
      assert Written(s, s.jobs[a].key, n);
      assert Written(s', s.jobs[a].key, n);
    }
  }

  lemma JobToSave(s: State, account: string, receivedAt: Instant, sentAt: Option<Instant>)
    requires Base(s) && JobIs(s, account, true)
    ensures var e := EmailWith(s.jobs[account].key, receivedAt, sentAt, s.jobs[account].done);
      WellFormed(e) && e.key.account == account && (account in s.db.accounts ==> Written(s, e.key, |e.attachments|))
  {
    assert JobOk(s, account);
  }

  /** A save adds attachment rows under its own account only. */
  lemma SaveAddsRows(db: Database, e: Email, x: string)
    requires Consistent(db) && WellFormed(e) && x in SaveEmail(db, e).0.attachments
    ensures x in db.attachments ==> SaveEmail(db, e).0.attachments[x] == db.attachments[x]
    ensures x !in db.attachments ==> e.key.account in db.accounts && exists i: nat ::
      1 <= i <= |e.attachments| && SaveEmail(db, e).0.attachments[x] == AttachmentRow(e.id, AttachmentOf(e.key, i).path)
  {
    SaveEffect(db, e);
    if x !in db.attachments {
      var row := SaveEmail(db, e).0.attachments[x];
      var i :| 0 <= i < |e.attachments| && x == e.attachments[i].id;
      AttachmentIdAt(e, i);
      assert row == AttachmentRow(e.id, AttachmentOf(e.key, i + 1).path);
    }
  }

  lemma SaveKeepsBase(s: State, account: string, receivedAt: Instant, sentAt: Option<Instant>, fault: Fault)
    requires Base(s) && Enabled(s, SaveMessage(account, receivedAt, sentAt, fault))
    ensures Base(Next(s, SaveMessage(account, receivedAt, sentAt, fault)))
  {
    var email := EmailWith(s.jobs[account].key, receivedAt, sentAt, s.jobs[account].done);
    JobToSave(s, account, receivedAt, sentAt);
    SaveKeepsConsistent(s.db, email);
    var s' := Next(s, SaveMessage(account, receivedAt, sentAt, fault));
    forall a | a in s'.jobs ensures JobOk(s', a) {
      assert JobOk(s, a) && a != account;
      forall x | x in s'.db.attachments && s'.db.attachments[x].path.account == a
        ensures x in s.db.attachments && s.db.attachments[x] == s'.db.attachments[x]
      {
        if fault != FailsBefore { SaveAddsRows(s.db, email, x); }
      }
      JobStays(s, s', a);
    }
  }

  lemma SaveKeepsFiles(s: State, account: string, receivedAt: Instant, sentAt: Option<Instant>, fault: Fault)
    requires Base(s) && RowsHaveFiles(s) && Enabled(s, SaveMessage(account, receivedAt, sentAt, fault))
    ensures RowsHaveFiles(Next(s, SaveMessage(account, receivedAt, sentAt, fault)))
  {
    var email := EmailWith(s.jobs[account].key, receivedAt, sentAt, s.jobs[account].done);
    JobToSave(s, account, receivedAt, sentAt);
    var s' := Next(s, SaveMessage(account, receivedAt, sentAt, fault));
    forall x | x in s'.db.attachments ensures s'.db.attachments[x].path in s'.files {
      if fault != FailsBefore { SaveAddsRows(s.db, email, x); }
    }
  }

  lemma ResetKeepsBase(s: State, account: string, validity: uint32, fault: Fault)
    requires Base(s) && Enabled(s, ResetRows(account, validity, fault))
    ensures Base(Next(s, ResetRows(account, validity, fault)))
  {
    StatementsKeepConsistent(s.db, account, validity, 0);
    var s' := Next(s, ResetRows(account, validity, fault));
    forall a | a in s'.jobs ensures JobOk(s', a) {
      if a in s.jobs {
        assert JobOk(s, a);
        JobStays(s, s', a);
      } else {
        forall x | x in s'.db.attachments ensures s'.db.attachments[x].path.account != account {
          RowPath(s.db, x);
        }
      }
    }
  }

  lemma WriteKeepsBase(s: State, step: Step)
    requires Base(s) && Enabled(s, step) && (step.StartMessage? || step.Abandon?)
    ensures Base(Next(s, step))
  {
  }

  lemma CopyKeepsBase(s: State, step: Step)
    requires Base(s) && Enabled(s, step) && step.CopyDone?
    ensures Base(Next(s, step))
  {
    assert JobOk(s, step.account);
  }

  lemma OtherFilesStay(s: State, s': State, a: string, other: string)
    requires JobOk(s, a) && a in s.jobs && a in s'.jobs && s'.jobs[a] == s.jobs[a] && a != other && s'.db == s.db
    requires forall p :: p in s.files && p.account != other ==> p in s'.files
    ensures JobOk(s', a)
  {
    if !s.jobs[a].Clearing? && a in s.db.accounts {
      var n := if s.jobs[a].Parsing? then s.jobs[a].done else s.jobs[a].index;
      assert Written(s, s.jobs[a].key, n);
      assert Written(s', s.jobs[a].key, n);
    }
  }

  /** Accounts keep their files apart, so a failed copy of one account concerns no other job. */
  lemma FailedCopyKeepsBase(s: State, step: Step)
    requires Base(s) && Enabled(s, step) && step.CopyFails?
    ensures Base(Next(s, step))
  {
    var s' := Next(s, step);
    assert JobOk(s, step.account);
    forall a | a in s'.jobs ensures JobOk(s', a) {
      assert JobOk(s, a);
      OtherFilesStay(s, s', a, step.account);
    }
  }

  lemma OpenKeepsBase(s: State, step: Step)
    requires Base(s) && Enabled(s, step) && step.OpenFile?
    ensures Base(Next(s, step))
  {
  }

  lemma AccountKeepsBase(s: State, step: Step)
    requires Base(s) && Enabled(s, step) && (step.CreateAccount? || step.DeleteRow?)
    ensures Base(Next(s, step))
  {
    StatementsKeepConsistent(s.db, step.id, 0, 0);
    var s' := Next(s, step);
    forall a | a in s'.jobs ensures JobOk(s', a) {
      assert JobOk(s, a) && Known(s, a);
      JobStays(s, s', a);
    }
  }

  lemma CursorKeepsBase(s: State, step: Step)
    requires Base(s) && Enabled(s, step) && step.MoveCursor?
    ensures Base(Next(s, step))
  {
    StatementsKeepConsistent(s.db, step.account, step.validity, step.lastUid);
    var s' := Next(s, step);
    forall a | a in s'.jobs ensures JobOk(s', a) {
      assert JobOk(s, a);
      JobStays(s, s', a);
    }
  }

  lemma ClearKeepsBase(s: State, step: Step)
    requires Base(s) && Enabled(s, step) && step.ClearTree?
    ensures Base(Next(s, step))
  {
    var s' := Next(s, step);
    forall a | a in s'.jobs ensures JobOk(s', a) {
      assert JobOk(s, a);
      if a != step.account { OtherFilesStay(s, s', a, step.account); }
    }
  }

  /** The tree of a deleted account: its jobs promise nothing about files. */
  lemma RemoveKeepsBase(s: State, step: Step)
    requires Base(s) && Enabled(s, step) && step.RemoveTree?
    ensures Base(Next(s, step))
  {
    var s' := Next(s, step);
    forall a | a in s'.jobs ensures JobOk(s', a) {
      assert JobOk(s, a);
      if a != step.id { OtherFilesStay(s, s', a, step.id); }
    }
  }

  lemma StepKeepsBase(s: State, step: Step)
    requires Base(s) && Enabled(s, step)
    ensures Base(Next(s, step))
  {
    match step
    case SaveMessage(a, receivedAt, sentAt, fault) => SaveKeepsBase(s, a, receivedAt, sentAt, fault);
    case ResetRows(a, validity, fault) => ResetKeepsBase(s, a, validity, fault);
    case OpenFile(_) => OpenKeepsBase(s, step);
    case CopyDone(_) => CopyKeepsBase(s, step);
    case CopyFails(_) => FailedCopyKeepsBase(s, step);
    case StartMessage(_) | Abandon(_) => WriteKeepsBase(s, step);
    case CreateAccount(_) | DeleteRow(_) => AccountKeepsBase(s, step);
    case MoveCursor(_, _, _) => CursorKeepsBase(s, step);
    case ClearTree(_, _, _) => ClearKeepsBase(s, step);
    case RemoveTree(_, _) => RemoveKeepsBase(s, step);
    case Crash =>
  }

  // ----- when a row loses its file -----

  lemma TreesKeepFiles(s: State, step: Step)
    requires Base(s) && RowsHaveFiles(s) && Enabled(s, step) && (step.ClearTree? || step.RemoveTree?)
    ensures RowsHaveFiles(Next(s, step))
  {
    forall x | x in s.db.attachments ensures s.db.attachments[x].path in Next(s, step).files {
      RowPath(s.db, x);
    }
  }

  /** From a state where every row has its file, a step loses one exactly when a failed copy hits a stored path. */
  lemma OnlyFailedCopyLosesFile(s: State, step: Step)
    requires Base(s) && RowsHaveFiles(s) && Enabled(s, step)
    ensures RowsHaveFiles(Next(s, step)) <==> !RemovesStored(s, step)
  {
    match step
    case SaveMessage(a, receivedAt, sentAt, fault) => SaveKeepsFiles(s, a, receivedAt, sentAt, fault);
    case ClearTree(_, _, _) => TreesKeepFiles(s, step);
    case RemoveTree(_, _) => TreesKeepFiles(s, step);
    case _ =>
  }

  ghost predicate Run(trace: seq<State>, steps: seq<Step>) {
    && |trace| == |steps| + 1 && Initial(trace[0])
    && forall i :: 0 <= i < |steps| ==> Enabled(trace[i], steps[i]) && trace[i + 1] == Next(trace[i], steps[i])
  }

  lemma {:induction false} BaseAlways(trace: seq<State>, steps: seq<Step>, i: nat)
    requires Run(trace, steps) && i < |trace|
    ensures Base(trace[i])
  {
    if i > 0 {
      BaseAlways(trace, steps, i - 1);
      StepKeepsBase(trace[i - 1], steps[i - 1]);
    }
  }

  /** In runs where no copy over a stored attachment fails, every row points at a file, at every crash point. */
  lemma {:induction false} RowsPointAtFiles(trace: seq<State>, steps: seq<Step>, i: nat)
    requires Run(trace, steps) && i < |trace|
    requires forall j :: 0 <= j < i ==> !RemovesStored(trace[j], steps[j])
    ensures RowsHaveFiles(trace[i])
  {
    if i > 0 {
      RowsPointAtFiles(trace, steps, i - 1);
      BaseAlways(trace, steps, i - 1);
      OnlyFailedCopyLosesFile(trace[i - 1], steps[i - 1]);
    }
  }

  lemma RemovalLosesFile(s: State, step: Step)
    requires Enabled(s, step) && RemovesStored(s, step)
    ensures !RowsHaveFiles(Next(s, step))
  {
    var p := AttachmentOf(s.jobs[step.account].key, s.jobs[step.account].index).path;
    var x :| x in s.db.attachments && s.db.attachments[x].path == p;
    assert x in Next(s, step).db.attachments;
  }

  /** Every row has had its file all along exactly when no copy over a stored attachment has failed. */
  lemma FilesLostOnlyByFailedCopies(trace: seq<State>, steps: seq<Step>, i: nat)
    requires Run(trace, steps) && i < |trace|
    ensures (forall k :: 0 <= k <= i ==> RowsHaveFiles(trace[k]))
       <==> (forall j :: 0 <= j < i ==> !RemovesStored(trace[j], steps[j]))
  {
    if forall j :: 0 <= j < i ==> !RemovesStored(trace[j], steps[j]) {
      forall k | 0 <= k <= i ensures RowsHaveFiles(trace[k]) { RowsPointAtFiles(trace, steps, k); }
    } else {
      var j :| 0 <= j < i && RemovesStored(trace[j], steps[j]);
      RemovalLosesFile(trace[j], steps[j]);
      assert !RowsHaveFiles(trace[j + 1]);
    }
  }

  /** It can happen to any stored first attachment: the message is fetched again and the copy fails. */
  lemma RefetchCanLoseFile(s: State, k: Key) returns (s1: State, s2: State)
    requires Base(s) && k.account !in s.jobs && k.account in s.db.accounts
    requires AttachmentOf(k, 1).id in s.db.attachments
    ensures Enabled(s, StartMessage(k)) && s1 == Next(s, StartMessage(k))
    ensures Enabled(s1, OpenFile(k.account)) && s2 == Next(s1, OpenFile(k.account))
    ensures Enabled(s2, CopyFails(k.account)) && !RowsHaveFiles(Next(s2, CopyFails(k.account)))
  {
    s1 := Next(s, StartMessage(k));
    s2 := Next(s1, OpenFile(k.account));
    var x := AttachmentOf(k, 1).id;
    var row := s.db.attachments[x];
    var i: nat :| AttachmentOf(s.db.emails[row.email].key, i) == Attachment(x, row.path);
    AttachmentIdInjective(EmailId(s.db.emails[row.email].key), i, EmailId(k), 1);
    EmailIdInjective(s.db.emails[row.email].key, k);
  }
}
