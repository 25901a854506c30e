/** Publication of the master key by a hard link, by any number of processes that may crash anywhere. */
module MasterKey {
  import opened Results

  type Bytes = seq<bv8>

  datatype KeyResult = Key(key: Bytes, created: bool) | Error

  /** readKeyFile on the content of an existing file. */
  function ReadKey(content: Bytes): KeyResult {
    if |content| == 32 then Key(content, false) else Error
  }

  // ----- one call, step by step -----

  /** Which calls fail, and what another process has published before the link. */
  datatype Faults = Faults(
    read: bool, mkdir: bool, random: bool, create: bool, chmod: bool, write: bool, sync: bool, close: bool,
    link: bool, reread: bool, remove: bool, rival: Option<Bytes>)

  /** The call gets as far as its link. */
  predicate Prepares(f: Faults) {
    !(f.read || f.mkdir || f.random || f.create || f.chmod || f.write || f.sync || f.close)
  }

  /** The link wins and is cleaned up, or it loses to a readable key. */
  predicate LinkResolves(f: Faults) {
    if f.rival.Some? then !f.reread && |f.rival.value| == 32 else !f.link && !f.remove
  }

  /** What the path holds after a call that found it absent. */
  function PublishedAfter(key: Bytes, f: Faults): Option<Bytes> {
    if !Prepares(f) then None else if f.rival.Some? then f.rival else if f.link then None else Some(key)
  }

  /** What a call returns. */
  function CallResult(published: Option<Bytes>, key: Bytes, f: Faults): KeyResult {
    if f.read then Error
    else if published.Some? then ReadKey(published.value)
    else if !Prepares(f) then Error
    else if f.rival.Some? then (if f.reread then Error else ReadKey(f.rival.value))
    else if f.link || f.remove then Error
    else Key(key, true)
  }

  class Directory {
    var published: Option<Bytes>
    var temp: Option<Bytes>

    constructor (published: Option<Bytes>)
      ensures this.published == published && temp == None
    {
      this.published, temp := published, None;
    }

    method RemoveTemp(fails: bool) returns (ok: bool)
      modifies this`temp
      ensures ok == !fails
      ensures temp == if ok then None else old(temp)
    {
      if !fails { temp := None; }
      return !fails;
    }

    /** The new key with owner-only access in a temporary file, complete or not at all. */
    method WriteTemp(key: Bytes, faults: Faults) returns (ok: bool)
      requires temp == None
      modifies this`temp
      ensures ok == !(faults.create || faults.chmod || faults.write || faults.sync || faults.close)
      ensures ok ==> temp == Some(key)
      ensures faults.create ==> temp == None
    {
      if faults.create { return false; }
      temp := Some([]);
      if faults.chmod { return false; }
      if faults.write { return false; }
      temp := Some(key);
      return !(faults.sync || faults.close);
    }

    method LoadOrCreateKey(key: Bytes, faults: Faults) returns (r: KeyResult)
      requires |key| == 32 && temp == None
      modifies this
      ensures r == CallResult(old(published), key, faults)
      ensures r.Key? ==> published == Some(r.key) && |r.key| == 32
      ensures r.Key? && r.created ==> old(published) == None && faults.rival == None && r.key == key
      ensures old(published).Some? ==>
        && published == old(published)
        && (r.Key? <==> !faults.read && |old(published).value| == 32)
      ensures old(published).None? ==> (r.Key? <==> Prepares(faults) && LinkResolves(faults))
      ensures old(published).None? ==> published == PublishedAfter(key, faults)
      ensures !faults.remove ==> temp == None
    {
      if faults.read { return Error; }
      if published.Some? { return ReadKey(published.value); }
      if faults.mkdir || faults.random { return Error; }
      var removeOnError := true;
      var written := WriteTemp(key, faults);
      if !written {
        r := Error;
      } else {
        if faults.rival.Some? { published := faults.rival; }
        if published.Some? {
          r := if faults.reread then Error else ReadKey(published.value);
        } else if faults.link {
          r := Error;
        } else {
          published := temp;
          var removed := RemoveTemp(faults.remove);
          if removed {
            removeOnError := false;
            r := Key(key, true);
          } else {
            r := Error;
          }
        }
      }
      if removeOnError { var _ := RemoveTemp(faults.remove); }
    }
  }

  // ----- racing processes -----

  /** What a process is about to do. Names of temporary files are random and taken as distinct. */
  datatype Phase =
    | Start
    | Missing                                       // the first read found no file
    | Drawn(key: Bytes)                             // directory made, key drawn
    | Writing(key: Bytes, inode: nat, written: nat) // temporary file open
    | Closed(key: Bytes, inode: nat)                // synced and closed
    | Linked(key: Bytes, inode: nat)
    | Lost(inode: nat)                              // link reported an existing file
    | Finished(result: KeyResult)
    | Crashed

  /** File contents by inode; the published name and each process's temporary name are links to inodes. */
  datatype State = State(
    contents: seq<Bytes>,
    published: Option<nat>,
    preexisting: bool,
    temps: map<nat, nat>,
    processes: seq<Phase>)

  datatype Step =
    | Spawn
    | Read(p: nat)
    | Draw(p: nat, key: Bytes)
    | Create(p: nat)
    | Write(p: nat, upTo: nat)
    | Close(p: nat)
    | Link(p: nat)
    | Reread(p: nat)
    | RemoveTemp(p: nat)
    | Fail(p: nat, cleaned: bool)
    | Crash(p: nat)

  predicate Enabled(s: State, step: Step) {
    match step
    case Spawn => true
    case Read(p) => p < |s.processes| && s.processes[p].Start?
    case Draw(p, key) => p < |s.processes| && s.processes[p].Missing? && |key| == 32
    case Create(p) => p < |s.processes| && s.processes[p].Drawn?
    case Write(p, n) => p < |s.processes| && s.processes[p].Writing? && s.processes[p].written < n <= |s.processes[p].key|
                        && s.processes[p].inode < |s.contents|
    case Close(p) => p < |s.processes| && s.processes[p].Writing? && s.processes[p].written == |s.processes[p].key|
    case Link(p) => p < |s.processes| && s.processes[p].Closed?
    case Reread(p) => p < |s.processes| && s.processes[p].Lost?
    case RemoveTemp(p) => p < |s.processes| && s.processes[p].Linked?
    case Fail(p, _) => p < |s.processes| && !s.processes[p].Finished? && !s.processes[p].Crashed?
    case Crash(p) => p < |s.processes| && !s.processes[p].Finished?
  }

  function Put(s: State, p: nat, phase: Phase): State
    requires p < |s.processes|
  {
    s.(processes := s.processes[p := phase])
  }

  function Untemp(s: State, p: nat): State {
    s.(temps := map q | q in s.temps && q != p :: s.temps[q])
  }

  function PublishedKey(s: State): KeyResult {
    if s.published.Some? && s.published.value < |s.contents| then ReadKey(s.contents[s.published.value]) else Error
  }

  function Next(s: State, step: Step): State
    requires Enabled(s, step)
  {
    match step
    case Spawn => s.(processes := s.processes + [Start])
    case Read(p) => Put(s, p, if s.published.None? then Missing else Finished(PublishedKey(s)))
    case Draw(p, key) => Put(s, p, Drawn(key))
    case Create(p) =>
      Put(s, p, Writing(s.processes[p].key, |s.contents|, 0)).(contents := s.contents + [[]], temps := s.temps[p := |s.contents|])
    case Write(p, n) =>
      var w := s.processes[p];
      Put(s, p, Writing(w.key, w.inode, n)).(contents := s.contents[w.inode := w.key[..n]])
    case Close(p) => Put(s, p, Closed(s.processes[p].key, s.processes[p].inode))
    case Link(p) =>
      var c := s.processes[p];
      if s.published.Some? then Put(s, p, Lost(c.inode))
      else Put(s, p, Linked(c.key, c.inode)).(published := Some(c.inode))
    case Reread(p) => Put(Untemp(s, p), p, Finished(PublishedKey(s)))
    case RemoveTemp(p) => Put(Untemp(s, p), p, Finished(Key(s.processes[p].key, true)))
    case Fail(p, cleaned) => Put(if cleaned then Untemp(s, p) else s, p, Finished(Error))
    case Crash(p) => Put(s, p, Crashed)
  }

  predicate Initial(s: State) {
    && s.processes == [] && s.temps == map[]
    && s.preexisting == s.published.Some?
    && (s.published.Some? ==> s.published.value < |s.contents|)
  }

  /** The process created the published key, or is about to report so. */
  predicate Winner(phase: Phase) {
    phase.Linked? || (phase.Finished? && phase.result.Key? && phase.result.created)
  }

  predicate PhaseOk(s: State, phase: Phase) {
    match phase
    case Drawn(key) => |key| == 32
    case Writing(key, inode, n) =>
      |key| == 32 && n <= 32 && inode < |s.contents| && s.contents[inode] == key[..n] && s.published != Some(inode)
    case Closed(key, inode) => |key| == 32 && inode < |s.contents| && s.contents[inode] == key && s.published != Some(inode)
    case Linked(key, inode) => |key| == 32 && inode < |s.contents| && s.contents[inode] == key && s.published == Some(inode)
    case Lost(inode) => s.published.Some?
    case Finished(Key(key, _)) =>
      |key| == 32 && s.published.Some? && s.published.value < |s.contents| && s.contents[s.published.value] == key
    case _ => true
  }

  predicate Holds(phase: Phase, inode: nat) {
    (phase.Writing? || phase.Closed? || phase.Linked?) && phase.inode == inode
  }

  ghost predicate Inv(s: State) {
    && (s.published.Some? ==> s.published.value < |s.contents|)
    && (s.preexisting ==> s.published.Some?)
    && (s.published.Some? && !s.preexisting ==> |s.contents[s.published.value]| == 32)
    && (forall p :: 0 <= p < |s.processes| ==> PhaseOk(s, s.processes[p]))
    && (forall p, q, i :: 0 <= p < |s.processes| && 0 <= q < |s.processes| && p != q ==>
         !(Holds(s.processes[p], i) && Holds(s.processes[q], i)))
    && (forall p :: 0 <= p < |s.processes| && Winner(s.processes[p]) ==> s.published.Some? && !s.preexisting)
    && (forall p, q :: 0 <= p < q < |s.processes| ==> !(Winner(s.processes[p]) && Winner(s.processes[q])))
  }

  lemma InodesDistinct(s: State, p: nat, q: nat, i: nat)
    requires Inv(s) && p < |s.processes| && q < |s.processes| && p != q
    requires Holds(s.processes[p], i)
    ensures !Holds(s.processes[q], i)
  {
  }

  lemma CreateKeepsInv(s: State, step: Step)
    requires Inv(s) && Enabled(s, step) && step.Create?
    ensures Inv(Next(s, step))
  {
    var s' := Next(s, step);
    forall q | 0 <= q < |s'.processes| ensures PhaseOk(s', s'.processes[q]) {
      assert PhaseOk(s, s.processes[q]);
    }
  }

  lemma WriteKeepsInv(s: State, step: Step)
    requires Inv(s) && Enabled(s, step) && step.Write?
    ensures Inv(Next(s, step))
  {
    var s' := Next(s, step);
    assert PhaseOk(s, s.processes[step.p]);
    forall q | 0 <= q < |s'.processes| ensures PhaseOk(s', s'.processes[q]) {
      assert PhaseOk(s, s.processes[q]);
      if q != step.p { InodesDistinct(s, step.p, q, s.processes[step.p].inode); }
    }
  }

  lemma CloseKeepsInv(s: State, step: Step)
    requires Inv(s) && Enabled(s, step) && step.Close?
    ensures Inv(Next(s, step))
  {
    assert PhaseOk(s, s.processes[step.p]);
    var w := s.processes[step.p];
    assert w.key[..|w.key|] == w.key;
  }

  lemma LinkKeepsInv(s: State, step: Step)
    requires Inv(s) && Enabled(s, step) && step.Link?
    ensures Inv(Next(s, step))
  {
    var s' := Next(s, step);
    assert PhaseOk(s, s.processes[step.p]);
    forall q | 0 <= q < |s'.processes| ensures PhaseOk(s', s'.processes[q]) {
      assert PhaseOk(s, s.processes[q]);
      if q != step.p { InodesDistinct(s, step.p, q, s.processes[step.p].inode); }
    }
  }

  lemma ReadKeepsInv(s: State, step: Step)
    requires Inv(s) && Enabled(s, step) && (step.Spawn? || step.Read? || step.Reread?)
    ensures Inv(Next(s, step))
  {
    var s' := Next(s, step);
    forall q | 0 <= q < |s'.processes| ensures PhaseOk(s', s'.processes[q]) {
      if q < |s.processes| { assert PhaseOk(s, s.processes[q]); }
    }
  }

  lemma FinishKeepsInv(s: State, step: Step)
    requires Inv(s) && Enabled(s, step) && step.RemoveTemp?
    ensures Inv(Next(s, step))
  {
    var s' := Next(s, step);
    assert PhaseOk(s, s.processes[step.p]) && Winner(s.processes[step.p]);
    forall q | 0 <= q < |s'.processes| ensures PhaseOk(s', s'.processes[q]) {
      assert PhaseOk(s, s.processes[q]);
    }
  }

  lemma StopKeepsInv(s: State, step: Step)
    requires Inv(s) && Enabled(s, step) && (step.Draw? || step.Fail? || step.Crash?)
    ensures Inv(Next(s, step))
  {
    var s' := Next(s, step);
    forall q | 0 <= q < |s'.processes| ensures PhaseOk(s', s'.processes[q]) {
      assert PhaseOk(s, s.processes[q]);
    }
  }

  lemma StepKeepsInv(s: State, step: Step)
    requires Inv(s) && Enabled(s, step)
    ensures Inv(Next(s, step))
  {
    match step
    case Create(_) => CreateKeepsInv(s, step);
    case Write(_, _) => WriteKeepsInv(s, step);
    case Close(_) => CloseKeepsInv(s, step);
    case Link(_) => LinkKeepsInv(s, step);
    case Spawn | Read(_) | Reread(_) => ReadKeepsInv(s, step);
    case RemoveTemp(_) => FinishKeepsInv(s, step);
    case Draw(_, _) | Fail(_, _) | Crash(_) => StopKeepsInv(s, step);
  }

  ghost predicate Run(trace: seq<State>, steps: seq<Step>) {
    && |trace| == |steps| + 1 && Initial(trace[0])
    && forall i :: 0 <= i < |steps| ==> Enabled(trace[i], steps[i]) && trace[i + 1] == Next(trace[i], steps[i])
  }

  lemma {:induction false} Safety(trace: seq<State>, steps: seq<Step>, i: nat)
    requires Run(trace, steps) && i < |trace|
    ensures Inv(trace[i])
  {
    if i > 0 {
      Safety(trace, steps, i - 1);
      StepKeepsInv(trace[i - 1], steps[i - 1]);
    }
  }

  /** Once the path exists its content never changes. */
  lemma {:induction false} PublishedKeyNeverChanges(trace: seq<State>, steps: seq<Step>, i: nat, k: nat)
    requires Run(trace, steps) && i <= k < |trace| && trace[i].published.Some?
    ensures trace[k].published == trace[i].published
    ensures trace[i].published.value < |trace[i].contents| && trace[i].published.value < |trace[k].contents|
    ensures trace[k].contents[trace[i].published.value] == trace[i].contents[trace[i].published.value]
  {
    Safety(trace, steps, i);
    if i < k {
      PublishedKeyNeverChanges(trace, steps, i, k - 1);
      Safety(trace, steps, k - 1);
    }
  }

  lemma {:induction false} OriginStays(trace: seq<State>, steps: seq<Step>, i: nat)
    requires Run(trace, steps) && i < |trace|
    ensures trace[i].preexisting == trace[0].published.Some?
  {
    if i > 0 { OriginStays(trace, steps, i - 1); }
  }

  /** If the path did not exist at first, it is absent or holds one complete 32-byte key. */
  lemma AbsentOrComplete(trace: seq<State>, steps: seq<Step>, i: nat)
    requires Run(trace, steps) && i < |trace| && trace[0].published.None?
    ensures trace[i].published.Some? ==>
      trace[i].published.value < |trace[i].contents| && |trace[i].contents[trace[i].published.value]| == 32
  {
    Safety(trace, steps, i);
    OriginStays(trace, steps, i);
  }

  /** All successful callers return one key: the published one. */
  lemma SuccessfulCallersAgree(trace: seq<State>, steps: seq<Step>, i: nat, p: nat, k: nat, q: nat)
    requires Run(trace, steps) && i <= k < |trace| && p < |trace[i].processes| && q < |trace[k].processes|
    requires trace[i].processes[p].Finished? && trace[i].processes[p].result.Key?
    requires trace[k].processes[q].Finished? && trace[k].processes[q].result.Key?
    ensures trace[i].processes[p].result.key == trace[k].processes[q].result.key
    ensures |trace[i].processes[p].result.key| == 32
  {
    Safety(trace, steps, i);
    Safety(trace, steps, k);
    assert PhaseOk(trace[i], trace[i].processes[p]);
    assert PhaseOk(trace[k], trace[k].processes[q]);
    PublishedKeyNeverChanges(trace, steps, i, k);
  }

  /** At most one caller ever reports that it created the key. */
  lemma AtMostOneCreator(trace: seq<State>, steps: seq<Step>, i: nat, p: nat, q: nat)
    requires Run(trace, steps) && i < |trace| && p < |trace[i].processes| && q < |trace[i].processes|
    requires trace[i].processes[p].Finished? && trace[i].processes[p].result.Key? && trace[i].processes[p].result.created
    requires trace[i].processes[q].Finished? && trace[i].processes[q].result.Key? && trace[i].processes[q].result.created
    ensures p == q && trace[0].published.None?
  {
    Safety(trace, steps, i);
    OriginStays(trace, steps, i);
    assert Winner(trace[i].processes[p]) && Winner(trace[i].processes[q]);
  }

  // ----- one call is a run of the machine -----

  predicate Path(s: State, steps: seq<Step>, t: State)
    decreases |steps|
  {
    if steps == [] then s == t
    else Enabled(s, steps[0]) && Path(Next(s, steps[0]), steps[1..], t)
  }

  lemma {:induction false} Extend(s: State, steps: seq<Step>, t: State, step: Step) returns (more: seq<Step>, u: State)
    requires Path(s, steps, t) && Enabled(t, step)
    ensures Path(s, more, u) && u == Next(t, step)
    ensures more == steps + [step]
    decreases |steps|
  {
    more, u := steps + [step], Next(t, step);
    if steps == [] {
      assert more == [step] && more[1..] == [];
    } else {
      var rest, v := Extend(Next(s, steps[0]), steps[1..], t, step);
      assert more[1..] == steps[1..] + [step];
    }
  }

  function Content(s: State): Option<Bytes> {
    if s.published.Some? && s.published.value < |s.contents| then Some(s.contents[s.published.value]) else None
  }

  /** Only process p has moved, to this phase, and nothing has been published. */
  predicate Moved(s: State, p: nat, phase: Phase, t: State) {
    && p < |s.processes| && t.processes == s.processes[p := phase]
    && t.published == s.published && s.contents <= t.contents
  }

  /** Up to the open temporary file. */
  lemma StartIsPath(s: State, p: nat, key: Bytes, f: Faults) returns (steps: seq<Step>, t: State)
    requires p < |s.processes| && s.processes[p] == Start && |key| == 32 && s.published.None?
    ensures Path(s, steps, t)
    ensures Moved(s, p, if f.read || f.mkdir || f.random || f.create then Finished(Error) else Writing(key, |s.contents|, 0), t)
    ensures !(f.read || f.mkdir || f.random || f.create) ==> t.contents == s.contents + [[]]
  {
    steps, t := [], s;
    if f.read {
      steps, t := Extend(s, steps, t, Fail(p, false));
      return;
    }
    steps, t := Extend(s, steps, t, Read(p));
    if f.mkdir || f.random {
      steps, t := Extend(s, steps, t, Fail(p, false));
      return;
    }
    steps, t := Extend(s, steps, t, Draw(p, key));
    if f.create {
      steps, t := Extend(s, steps, t, Fail(p, false));
    } else {
      steps, t := Extend(s, steps, t, Create(p));
    }
  }

  /** From the open temporary file to the closed one. */
  lemma FillIsPath(s: State, steps0: seq<Step>, s0: State, p: nat, key: Bytes, f: Faults)
    returns (steps: seq<Step>, t: State)
    requires Path(s, steps0, s0) && |key| == 32 && 0 < |s0.contents|
    requires p < |s0.processes| && s0.processes[p] == Writing(key, |s0.contents| - 1, 0)
    ensures Path(s, steps, t) && t.published == s0.published && |t.contents| == |s0.contents|
    ensures var failed := f.chmod || f.write || f.sync || f.close;
      && t.processes == s0.processes[p := if failed then Finished(Error) else Closed(key, |s0.contents| - 1)]
      && t.contents[..|s0.contents| - 1] == s0.contents[..|s0.contents| - 1]
      && (!failed ==> t.contents[|s0.contents| - 1] == key)
  {
    steps, t := steps0, s0;
    if f.chmod || f.write {
      steps, t := Extend(s, steps, t, Fail(p, !f.remove));
      return;
    }
    steps, t := Extend(s, steps, t, Write(p, 32));
    assert key[..32] == key;
    if f.sync || f.close {
      steps, t := Extend(s, steps, t, Fail(p, !f.remove));
    } else {
      steps, t := Extend(s, steps, t, Close(p));
    }
  }

  /** From the closed temporary file to the result, after a rival has published. */
  lemma LoseIsPath(s: State, steps0: seq<Step>, s0: State, p: nat, rival: nat, f: Faults) returns (steps: seq<Step>, t: State)
    requires Path(s, steps0, s0) && s0.published.None?
    requires p < |s0.processes| && rival < |s0.processes| && p != rival
    requires s0.processes[p].Closed? && s0.processes[rival].Closed?
    requires s0.processes[rival].inode < |s0.contents| && s0.contents[s0.processes[rival].inode] == s0.processes[rival].key
    ensures Path(s, steps, t) && p < |t.processes| && Content(t) == Some(s0.processes[rival].key)
    ensures t.processes[p] == Finished(if f.reread then Error else ReadKey(s0.processes[rival].key))
  {
    steps, t := Extend(s, steps0, s0, Link(rival));
    steps, t := Extend(s, steps, t, Link(p));
    steps, t := Extend(s, steps, t, if f.reread then Fail(p, !f.remove) else Reread(p));
  }

  /** From the closed temporary file to the result, without a rival. */
  lemma WinIsPath(s: State, steps0: seq<Step>, s0: State, p: nat, f: Faults) returns (steps: seq<Step>, t: State)
    requires Path(s, steps0, s0) && s0.published.None? && p < |s0.processes| && s0.processes[p].Closed?
    requires s0.processes[p].inode < |s0.contents| && s0.contents[s0.processes[p].inode] == s0.processes[p].key
    ensures Path(s, steps, t) && p < |t.processes|
    ensures Content(t) == if f.link then None else Some(s0.processes[p].key)
    ensures t.processes[p] == Finished(if f.link || f.remove then Error else Key(s0.processes[p].key, true))
  {
    if f.link {
      steps, t := Extend(s, steps0, s0, Fail(p, !f.remove));
      return;
    }
    steps, t := Extend(s, steps0, s0, Link(p));
    steps, t := Extend(s, steps, t, if f.remove then Fail(p, false) else RemoveTemp(p));
  }

  lemma CallOnExisting(s: State, p: nat, key: Bytes, f: Faults) returns (steps: seq<Step>, t: State)
    requires Inv(s) && p < |s.processes| && s.processes[p] == Start && s.published.Some?
    ensures Path(s, steps, t) && p < |t.processes| && Content(t) == Content(s)
    ensures t.processes[p] == Finished(CallResult(Content(s), key, f))
  {
    steps, t := Extend(s, [], s, if f.read then Fail(p, false) else Read(p));
  }

  lemma RivalStays(s: State, s0: State, t: State, inode: nat)
    requires inode < |s.contents| && s0.contents == s.contents + [[]]
    requires |t.contents| == |s0.contents| && t.contents[..|s0.contents| - 1] == s0.contents[..|s0.contents| - 1]
    ensures inode < |t.contents| && t.contents[inode] == s.contents[inode]
  {
    assert t.contents[..|s0.contents| - 1][inode] == s0.contents[..|s0.contents| - 1][inode];
  }

  /**
    One call, as specified for the directory, is a run of the machine with the same result and the same
    published content. A rival that publishes first is another process whose temporary file is closed.
   */
  lemma CallIsPath(s: State, p: nat, key: Bytes, f: Faults, rival: nat) returns (steps: seq<Step>, t: State)
    requires Inv(s) && p < |s.processes| && s.processes[p] == Start && |key| == 32
    requires f.rival.Some? ==> rival < |s.processes| && s.processes[rival].Closed? && s.processes[rival].key == f.rival.value
    ensures Path(s, steps, t) && p < |t.processes|
    ensures t.processes[p] == Finished(CallResult(Content(s), key, f))
    ensures Content(t) == if s.published.Some? then Content(s) else PublishedAfter(key, f)
  {
    if s.published.Some? {
      steps, t := CallOnExisting(s, p, key, f);
      return;
    }
    steps, t := StartIsPath(s, p, key, f);
    if f.read || f.mkdir || f.random || f.create { return; }
    var s0 := t;
    steps, t := FillIsPath(s, steps, t, p, key, f);
    if f.chmod || f.write || f.sync || f.close { return; }
    if f.rival.Some? {
      assert PhaseOk(s, s.processes[rival]);
      RivalStays(s, s0, t, s.processes[rival].inode);
      steps, t := LoseIsPath(s, steps, t, p, rival, f);
    } else {
      steps, t := WinIsPath(s, steps, t, p, f);
    }
  }

}
