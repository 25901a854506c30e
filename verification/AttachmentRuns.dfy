/** The parser against the attachment machine, and what every run of the machine writes as times. */
module AttachmentRuns {
  import opened Results
  import opened Store
  import opened TimeText
  import opened MailParse
  import opened Attachments

  // ----- parsing is a run of the machine -----

  predicate Path(s: State, steps: seq<Step>, t: State)
    decreases |steps|
  {
    if steps == [] then s == t
    else Enabled(s, steps[0]) && Path(Next(s, steps[0]), steps[1..], t)
  }

  lemma {:induction false} PathsJoin(s: State, a: seq<Step>, t: State, b: seq<Step>, u: State)
    requires Path(s, a, t) && Path(t, b, u)
    ensures Path(s, a + b, u)
    decreases |a|
  {
    if a == [] {
      assert a + b == b;
    } else {
      PathsJoin(Next(s, a[0]), a[1..], t, b, u);
      assert (a + b)[1..] == a[1..] + b;
    }
  }

  lemma OneStep(s: State, step: Step)
    requires Enabled(s, step)
    ensures Path(s, [step], Next(s, step))
  {
    assert [step][1..] == [];
  }

  lemma TwoSteps(s: State, a: Step, b: Step)
    requires Enabled(s, a) && Enabled(Next(s, a), b)
    ensures Path(s, [a] + [b], Next(Next(s, a), b))
  {
    OneStep(s, a);
    OneStep(Next(s, a), b);
    PathsJoin(s, [a], Next(s, a), [b], Next(Next(s, a), b));
  }

  predicate IsParsing(s: State, k: Key, n: nat) {
    k.account in s.jobs && s.jobs[k.account] == Parsing(k, n)
  }

  /** The state in which part p leaves the machine. */
  function AfterPart(s: State, k: Key, n: nat, p: Part): State {
    s.(files := FilesWith(s.files, k, p, n + 1),
       jobs := if Fails(p) then Without(s.jobs, k.account)
               else s.jobs[k.account := Parsing(k, if p.Attached? then n + 1 else n)])
  }

  lemma OpenedAndClosed(s: State, k: Key, n: nat, p: Part)
    requires IsParsing(s, k, n) && p.Attached? && p.saving != OpenFails
    ensures var during := Next(s, OpenFile(k.account));
      Next(during, if p.saving == Copied then CopyDone(k.account) else Step.CopyFails(k.account)) == AfterPart(s, k, n, p)
  {
    var path := AttachmentOf(k, n + 1).path;
    assert s.files + {path} - {path} == s.files - {path};
    assert Without(s.jobs[k.account := Copying(k, n + 1)], k.account) == Without(s.jobs, k.account);
    assert s.jobs[k.account := Copying(k, n + 1)][k.account := Parsing(k, n + 1)] == s.jobs[k.account := Parsing(k, n + 1)];
  }

  lemma PartIsPath(s: State, k: Key, n: nat, p: Part) returns (steps: seq<Step>)
    requires IsParsing(s, k, n)
    ensures Path(s, steps, AfterPart(s, k, n, p))
  {
    var a := k.account;
    if p.Attached? && p.saving != OpenFails {
      var last := if p.saving == Copied then CopyDone(a) else Step.CopyFails(a);
      TwoSteps(s, OpenFile(a), last);
      steps := [OpenFile(a)] + [last];
      OpenedAndClosed(s, k, n, p);
    } else if Fails(p) {
      OneStep(s, Abandon(a));
      steps := [Abandon(a)];
    } else {
      steps := [];
      assert s.jobs[a := Parsing(k, n)] == s.jobs;
    }
  }

  /** What parsing leaves: the files of the loop, and a job that is done or gone. */
  predicate Parsed(s: State, k: Key, parts: seq<Part>, t: State) {
    var j := FirstFailure(parts);
    && t.db == s.db && t.deleted == s.deleted
    && t.files == FilesAfter(s.files, k, parts, j)
    && t.jobs == if j == |parts| then s.jobs[k.account := Parsing(k, AttachedCount(parts))] else Without(s.jobs, k.account)
  }

  /** The state before part j when no earlier part has failed. */
  function Before(s: State, k: Key, parts: seq<Part>, j: nat): State
    requires j <= |parts|
  {
    s.(files := Tree(s.files, k, parts[..j]), jobs := s.jobs[k.account := Parsing(k, AttachedCount(parts[..j]))])
  }

  lemma NextPart(s: State, k: Key, parts: seq<Part>, j: nat)
    requires j < |parts|
    ensures var t := AfterPart(Before(s, k, parts, j), k, AttachedCount(parts[..j]), parts[j]);
      && (!Fails(parts[j]) ==> t == Before(s, k, parts, j + 1))
      && (NoneFails(parts, j) && Fails(parts[j]) ==> Parsed(s, k, parts, t))
  {
    TakesNext(s.files, k, parts, j);
    CollectedIs(k, parts[..j]);
    assert parts[..j + 1][..j] == parts[..j];
    if NoneFails(parts, j) && Fails(parts[j]) {
      LoopLeaves(s.files, k, parts, j);
      assert Without(s.jobs[k.account := Parsing(k, AttachedCount(parts[..j]))], k.account) == Without(s.jobs, k.account);
    }
  }

  lemma {:induction false} PartsArePath(s: State, k: Key, parts: seq<Part>, j: nat) returns (steps: seq<Step>, t: State)
    requires j <= |parts| && NoneFails(parts, j)
    ensures Path(Before(s, k, parts, j), steps, t) && Parsed(s, k, parts, t)
    decreases |parts| - j
  {
    var b := Before(s, k, parts, j);
    if j == |parts| {
      LoopLeaves(s.files, k, parts, j);
      assert parts[..j] == parts;
      steps, t := [], b;
    } else {
      NextPart(s, k, parts, j);
      var n := AttachedCount(parts[..j]);
      var first := PartIsPath(b, k, n, parts[j]);
      t := AfterPart(b, k, n, parts[j]);
      steps := first;
      if !Fails(parts[j]) {
        var rest;
        rest, t := PartsArePath(s, k, parts, j + 1);
        PathsJoin(b, first, AfterPart(b, k, n, parts[j]), rest, t);
        steps := first + rest;
      }
    }
  }

  /** Parsing a message, as specified for the parser, is a run of the machine that leaves the same files. */
  lemma ParseIsPath(s: State, k: Key, parts: seq<Part>) returns (steps: seq<Step>, t: State)
    requires k.account !in s.jobs && Known(s, k.account)
    ensures Path(s, steps, t) && Parsed(s, k, parts, t)
  {
    var s1 := Next(s, StartMessage(k));
    assert parts[..0] == [];
    assert Before(s, k, parts, 0) == s1;
    steps, t := PartsArePath(s, k, parts, 0);
    OneStep(s, StartMessage(k));
    PathsJoin(s, [StartMessage(k)], s1, steps, t);
    steps := [StartMessage(k)] + steps;
  }

  /** After parsing, the machine saves exactly the email that the parser returned. */
  lemma SavesParsedEmail(s: State, k: Key, parts: seq<Part>, t: State, receivedAt: Instant, sentAt: Option<Instant>, fault: Fault)
    requires Parsed(s, k, parts, t) && FirstFailure(parts) == |parts|
    ensures Enabled(t, SaveMessage(k.account, receivedAt, sentAt, fault))
    ensures Next(t, SaveMessage(k.account, receivedAt, sentAt, fault)).db ==
      Committed(s.db, SaveEmail(s.db, Email(EmailId(k), k, receivedAt, sentAt, Result(k, parts).attachments)).0, fault)
  {
  }

  // ----- the times of stored rows -----

  lemma StepWritesTimes(s: State, step: Step, x: string)
    requires Enabled(s, step) && x in Next(s, step).db.emails
    ensures (x in s.db.emails && Next(s, step).db.emails[x] == s.db.emails[x]) || TimesWritten(Next(s, step).db.emails[x])
  {
    if step.SaveMessage? {
      var job := s.jobs[step.account];
      SaveWritesTimes(s.db, EmailWith(job.key, step.receivedAt, step.sentAt, job.done));
    }
  }

  /** In every run, each stored row has times that were written from instants. */
  lemma {:induction false} TimesAlwaysWritten(trace: seq<State>, steps: seq<Step>, i: nat, x: string)
    requires Run(trace, steps) && i < |trace| && x in trace[i].db.emails
    ensures TimesWritten(trace[i].db.emails[x])
  {
    if i > 0 {
      StepWritesTimes(trace[i - 1], steps[i - 1], x);
      if x in trace[i - 1].db.emails { TimesAlwaysWritten(trace, steps, i - 1, x); }
    }
  }
}
