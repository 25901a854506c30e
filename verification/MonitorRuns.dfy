/** What holds along every run of the monitor, and that the code's sync is such a run. */
module MonitorRuns {
  import opened Results
  import opened Store
  import opened Sync
  import opened Monitor
  import opened MonitorSafety

  /** No gap: the cursor never passes a live message without a row. */
  lemma CursorLeavesNoGap(trace: seq<State>, steps: seq<Step>, i: nat, u: uint32)
    requires Run(trace, steps) && i < |trace|
    requires Aligned(trace[i].server, trace[i].copy) && u in trace[i].server.live
    ensures u <= trace[i].copy.lastUid ==> MessageId(trace[i].server.validity, u) in trace[i].copy.stored
    ensures MessageId(trace[i].server.validity, u) !in trace[i].copy.stored ==> trace[i].copy.lastUid < u
  {
    Safety(trace, steps, i);
  }

  predicate CursorNotBehind(a: Copy, b: Copy) {
    b.Copy? ==> a.Copy? && (a.validity < b.validity || (a.validity == b.validity && a.lastUid <= b.lastUid))
  }

  lemma OtherStepsKeepCopy(s: State, step: Step)
    requires Enabled(s, step)
    requires !step.DeleteRow? && !step.ResetRows? && !step.FetchMessage? && !step.Commit?
    ensures Next(s, step).copy == s.copy
  {
  }

  lemma ResetMovesCursorForward(s: State, fault: Fault)
    requires Inv(s) && Enabled(s, ResetRows(fault))
    ensures CursorNotBehind(s.copy, Next(s, ResetRows(fault)).copy)
  {
  }

  lemma FetchLeavesCursor(s: State, fetch: Fetch)
    requires Enabled(s, FetchMessage(fetch))
    ensures CursorNotBehind(s.copy, Next(s, FetchMessage(fetch)).copy)
  {
  }

  lemma CommitMovesCursorForward(s: State, fault: Fault)
    requires Inv(s) && Enabled(s, Commit(fault))
    ensures CursorNotBehind(s.copy, Next(s, Commit(fault)).copy)
  {
  }

  lemma StepMovesCursorForward(s: State, step: Step)
    requires Inv(s) && Enabled(s, step)
    ensures CursorNotBehind(s.copy, Next(s, step).copy)
  {
    match step
    case DeleteRow =>
    case ResetRows(fault) => ResetMovesCursorForward(s, fault);
    case FetchMessage(fetch) => FetchLeavesCursor(s, fetch);
    case Commit(fault) => CommitMovesCursorForward(s, fault);
    case _ => OtherStepsKeepCopy(s, step);
  }

  /** The persisted cursor never moves back under one UIDVALIDITY, and UIDVALIDITY never returns. */
  lemma {:induction false} CursorNeverDecreases(trace: seq<State>, steps: seq<Step>, i: nat, k: nat)
    requires Run(trace, steps) && i <= k < |trace|
    ensures CursorNotBehind(trace[i].copy, trace[k].copy)
  {
    if i < k {
      CursorNeverDecreases(trace, steps, i, k - 1);
      Safety(trace, steps, k - 1);
      StepMovesCursorForward(trace[k - 1], steps[k - 1]);
    }
  }

  /** Each row of the account carries its persisted UIDVALIDITY. */
  lemma RowsCarryPersistedValidity(trace: seq<State>, steps: seq<Step>, i: nat, m: MessageId)
    requires Run(trace, steps) && i < |trace| && trace[i].copy.Copy? && m in trace[i].copy.stored
    ensures m.validity == trace[i].copy.validity
  {
    Safety(trace, steps, i);
  }

  /** Only the highest message can be listed from at or below the cursor, and then it is alone. */
  lemma LowerListedIsAbove(live: set<uint32>, lastUid: uint32, uids: seq<uint32>, a: nat, b: nat)
    requires uids == Listing(Matches(live, SearchStart(lastUid))) && a < b < |uids|
    ensures lastUid < uids[a] && uids[a] in live && uids[b] in live
  {
    assert uids[a] in Matches(live, SearchStart(lastUid));
    assert uids[b] in Matches(live, SearchStart(lastUid));
    assert uids[a] < uids[b];
  }

  lemma StoredPrefix(v: Server, c: Copy, uids: seq<uint32>) returns (k: nat)
    requires c.Copy? && RowsOk(v, c) && Aligned(v, c) && uids == Listing(Matches(v.live, SearchStart(c.lastUid)))
    ensures k <= 25 && k <= |uids|
    ensures forall t :: 0 <= t < |uids| ==> (Has(c, uids[t]) <==> t < k)
  {
    SearchLists(v.live, c.lastUid, uids);
    k := 0;
    while k < |uids| && Has(c, uids[k])
      invariant k <= |uids| && forall t :: 0 <= t < k ==> Has(c, uids[t])
    {
      k := k + 1;
    }
    forall t | k <= t < |uids| ensures !Has(c, uids[t]) {
      if k < t { LowerListedIsAbove(v.live, c.lastUid, uids, k, t); }
    }
    if k > 1 {
      LowerListedIsAbove(v.live, c.lastUid, uids, 0, k - 1);
      forall t | 0 <= t < k ensures uids[t] in Ahead(v, c) {
        assert uids[t] in uids && uids[0] <= uids[t];
      }
      FewAhead(v, c, uids, k - 1);
    }
  }

  /**
    Bounded rework: the messages a search selects that are stored already are its first k, with k at
    most one batch, whatever failed or was expunged before.
   */
  lemma SearchRepeatsAtMostABatch(trace: seq<State>, steps: seq<Step>, i: nat) returns (k: nat)
    requires Run(trace, steps) && i < |steps| && steps[i] == Search && trace[i].copy.Copy?
    ensures var uids := Listing(Matches(trace[i].server.live, SearchStart(trace[i].phase.account.lastUid)));
      && k <= 25 && k <= |uids|
      && forall t :: 0 <= t < |uids| ==> (Has(trace[i].copy, uids[t]) <==> t < k)
  {
    var s := trace[i];
    Safety(trace, steps, i);
    var uids := Listing(Matches(s.server.live, SearchStart(s.copy.lastUid)));
    k := StoredPrefix(s.server, s.copy, uids);
  }

  // ----- manual sync -----

  lemma LoopKeepsSnapshot(s: State, step: Step)
    requires Enabled(s, step) && (step.FetchMessage? || step.Commit?) && HasSnapshot(Next(s, step).phase)
    ensures HasSnapshot(s.phase) && Next(s, step).phase.at.snapshot == s.phase.at.snapshot
    ensures Next(s, step).phase.request == s.phase.request
  {
  }

  predicate ServerMoves(step: Step) {
    step.Append? || step.Expunge? || step.Renumber? || step.LoseSession? || step.DeleteRow?
  }

  lemma ServerKeepsPhase(s: State, step: Step)
    requires Enabled(s, step) && ServerMoves(step)
    ensures Next(s, step).phase == s.phase
  {
  }

  predicate ChannelMoves(step: Step) { step.Exists? || step.Offer? || step.Withdraw? || step.Collect? }

  lemma ChannelsKeepPhase(s: State, step: Step)
    requires Enabled(s, step) && ChannelMoves(step)
    ensures Next(s, step).phase == s.phase
  {
    match step
    case Exists =>
    case Offer(_) =>
    case Withdraw(_) =>
    case Collect(_) =>
  }

  lemma SnapshotDropped(s: State, step: Step)
    requires Enabled(s, step) && !ServerMoves(step) && !ChannelMoves(step) && !step.Search? && !step.FetchMessage? && !step.Commit?
    ensures !HasSnapshot(Next(s, step).phase)
  {
  }

  lemma SnapshotStays(s: State, step: Step)
    requires Enabled(s, step) && step != Search && HasSnapshot(Next(s, step).phase)
    ensures HasSnapshot(s.phase) && Next(s, step).phase.at.snapshot == s.phase.at.snapshot
    ensures Next(s, step).phase.request == s.phase.request
  {
    if ServerMoves(step) {
      ServerKeepsPhase(s, step);
    } else if ChannelMoves(step) {
      ChannelsKeepPhase(s, step);
    } else if step.FetchMessage? || step.Commit? {
      LoopKeepsSnapshot(s, step);
    } else {
      SnapshotDropped(s, step);
    }
  }

  /** A snapshot is the server as the latest search saw it, on behalf of the same request. */
  lemma {:induction false} SnapshotIsFromSearch(trace: seq<State>, steps: seq<Step>, i: nat) returns (h: nat)
    requires Run(trace, steps) && i < |trace| && HasSnapshot(trace[i].phase)
    ensures h < i && steps[h] == Search && trace[h].server == trace[i].phase.at.snapshot
    ensures trace[h].phase.Working? && trace[h].phase.request == trace[i].phase.request
  {
    var s, step := trace[i - 1], steps[i - 1];
    if step == Search {
      h := i - 1;
    } else {
      SnapshotStays(s, step);
      h := SnapshotIsFromSearch(trace, steps, i - 1);
    }
  }

  /**
    A nil reply to a manual sync: every message that the mailbox held at that sync's search, which ran
    after the request was taken, is stored and at or below the cursor, unless the account is deleted.
   */
  lemma NilReplyMeansStored(trace: seq<State>, steps: seq<Step>, i: nat) returns (h: nat)
    requires Run(trace, steps) && i < |steps| && steps[i] == FinishSync
    ensures h < i && steps[h] == Search && trace[h].phase.Working? && trace[h].phase.request == trace[i].phase.request
    ensures Enabled(trace[i], steps[i]) && trace[h].server == trace[i].phase.at.snapshot
    ensures trace[i].phase.request.Some? ==>
      var r := trace[i].phase.request.value;
      && r in trace[h].requests && trace[h].requests[r].received
      && r in trace[i + 1].requests && trace[i + 1].requests[r].slot == Some(Nil(trace[h].server))
    ensures trace[i + 1].copy.Copy? ==> forall u :: u in trace[h].server.live ==>
      MessageId(trace[h].server.validity, u) in trace[i + 1].copy.stored && u <= trace[i + 1].copy.lastUid
  {
    h := SnapshotIsFromSearch(trace, steps, i);
    Safety(trace, steps, h);
    Safety(trace, steps, i);
  }

  predicate HasNil(s: State, r: nat, v: Server) {
    r in s.requests && s.requests[r].slot == Some(Nil(v))
  }

  lemma NilComesFromSync(s: State, step: Step, r: nat, v: Server)
    requires Enabled(s, step) && !HasNil(s, r, v) && HasNil(Next(s, step), r, v)
    ensures step == FinishSync && s.phase.request == Some(r) && s.phase.at.snapshot == v
  {
  }

  lemma {:induction false} NilWasSent(trace: seq<State>, steps: seq<Step>, i: nat, r: nat, v: Server) returns (j: nat)
    requires Run(trace, steps) && i < |trace| && HasNil(trace[i], r, v)
    ensures j < i && steps[j] == FinishSync && Enabled(trace[j], steps[j])
    ensures trace[j].phase.request == Some(r) && trace[j].phase.at.snapshot == v
  {
    if HasNil(trace[i - 1], r, v) {
      j := NilWasSent(trace, steps, i - 1, r, v);
    } else {
      j := i - 1;
      NilComesFromSync(trace[j], steps[j], r, v);
    }
  }

  /** Whoever finds a nil reply in the channel: all messages of that sync's search had been stored when it was sent. */
  lemma NilFoundMeansStored(trace: seq<State>, steps: seq<Step>, i: nat, r: nat, v: Server) returns (h: nat, j: nat)
    requires Run(trace, steps) && i < |trace| && HasNil(trace[i], r, v)
    ensures h < j < i && steps[h] == Search && steps[j] == FinishSync && trace[h].server == v
    ensures trace[h].phase.Working? && trace[h].phase.request == Some(r)
    ensures r in trace[h].requests && trace[h].requests[r].received
    ensures trace[j + 1].copy.Copy? ==> forall u :: u in v.live ==>
      MessageId(v.validity, u) in trace[j + 1].copy.stored && u <= trace[j + 1].copy.lastUid
  {
    j := NilWasSent(trace, steps, i, r, v);
    h := NilReplyMeansStored(trace, steps, j);
  }

  /** Back at a select or stopped, the worker has answered each request it took exactly once. */
  lemma OneReplyPerRequest(trace: seq<State>, steps: seq<Step>, i: nat, r: nat)
    requires Run(trace, steps) && i < |trace| && r in trace[i].requests
    ensures trace[i].requests[r].sent <= 1
    ensures (trace[i].phase.Idling? || trace[i].phase.Backoff? || trace[i].phase.Down? || trace[i].phase.Connecting?) ==>
      trace[i].requests[r].sent == if trace[i].requests[r].received then 1 else 0
  {
    Safety(trace, steps, i);
  }

  /** Sending a reply never blocks: the slot of the request in hand is free. */
  lemma SendNeverBlocks(trace: seq<State>, steps: seq<Step>, i: nat)
    requires Run(trace, steps) && i < |trace|
    ensures CanSend(trace[i], RequestOf(trace[i].phase))
  {
    Safety(trace, steps, i);
  }

  // ----- wake-ups -----

  /** An EXISTS callback after the latest search leaves a token, a search to come, or a connection that ends. */
  lemma WakeUpIsNotLost(trace: seq<State>, steps: seq<Step>, i: nat)
    requires Run(trace, steps) && i < |trace| && trace[i].news
    ensures trace[i].notify || trace[i].phase.Stopping? || trace[i].phase.Failing? ||
      (trace[i].phase.Working? && (trace[i].phase.at.Begin? || trace[i].phase.at.Searching?))
  {
    Safety(trace, steps, i);
  }

  /** Waiting in IDLE with no token and no announcement on its way means that the mailbox is stored. */
  lemma QuietWorkerIsUpToDate(trace: seq<State>, steps: seq<Step>, i: nat, u: uint32)
    requires Run(trace, steps) && i < |trace|
    requires trace[i].phase.Idling? && trace[i].session && !trace[i].notify && !trace[i].inflight
    requires trace[i].copy.Copy? && u in trace[i].server.live
    ensures MessageId(trace[i].server.validity, u) in trace[i].copy.stored && u <= trace[i].copy.lastUid
  {
    Safety(trace, steps, i);
  }

  // ----- the code's sync is a run of the machine -----

  predicate Path(s: State, steps: seq<Step>, t: State)
    decreases |steps|
  {
    if steps == [] then s == t
    else Enabled(s, steps[0]) && Path(Next(s, steps[0]), steps[1..], t)
  }

  lemma {:induction false} Prepend(s: State, step: Step, rest: seq<Step>, t: State)
    requires Enabled(s, step) && Path(Next(s, step), rest, t)
    ensures Path(s, [step] + rest, t)
  {
    assert ([step] + rest)[1..] == rest;
  }

  /** Where the machine stands when sync returns with outcome o. */
  predicate Returned(s: State, t: State, o: Outcome)
    requires s.phase.Working?
  {
    && t.copy == o.copy
    && t.phase == if o.ok then Working(o.account, s.phase.selected, s.phase.request, Done(s.server))
                  else Failing(s.phase.request)
  }

  predicate InLoop(s: State) {
    s.phase.Working? && (s.phase.at.Fetching? || s.phase.at.Committing?) && s.phase.at.j <= |s.phase.at.uids|
  }

  /** The outcome that the specification of the loop gives from here. */
  function Rest(s: State, script: Script, commit: Fault): Outcome
    requires InLoop(s)
  {
    var p := s.phase;
    if p.at.Fetching? then FetchFrom(s.copy, p.account, p.at.uids, p.at.j, p.at.last, script)
    else CloseBatch(s.copy, p.account, p.at.uids, p.at.j, p.at.last, script, commit)
  }

  lemma FetchFollowsLoop(s: State, script: Script)
    requires InLoop(s) && s.phase.at.Fetching? && s.phase.at.j < |s.phase.at.uids|
    ensures var t := Next(s, FetchMessage(script.fetch(s.phase.at.j)));
      && (t.phase == Failing(s.phase.request) || (InLoop(t) && t.phase == s.phase.(at := Advanced(s.phase.at))))
      && Rest(s, script, Works) ==
           if t.phase.Failing? then Outcome(t.copy, s.phase.account, false)
           else Rest(t, script, script.commit(s.phase.at.j / BATCH))
  {
  }

  lemma CommitFollowsLoop(s: State, script: Script, commit: Fault)
    requires InLoop(s) && s.phase.at.Committing?
    ensures var t := Next(s, Commit(commit));
      && (t.phase == Failing(s.phase.request) || t.phase == s.phase.(account := t.phase.account, at := t.phase.at))
      && (t.phase.Working? && !t.phase.at.Done? ==> s.phase.at.j < |s.phase.at.uids|)
      && (t.phase.Working? && !t.phase.at.Done? ==>
           t.phase.at == Fetching(s.phase.at.snapshot, s.phase.at.uids, s.phase.at.j, s.phase.at.j, s.phase.at.last))
      && (t.phase.Working? && t.phase.at.Done? ==> t.phase.at.snapshot == s.phase.at.snapshot)
      && Rest(s, script, commit) ==
           if t.phase.Failing? then Outcome(t.copy, s.phase.account, false)
           else if t.phase.at.Done? then Outcome(t.copy, t.phase.account, true)
           else Rest(t, script, Works)
  {
    var t := Next(s, Commit(commit));
    if t.phase.Working? {
      assert Rest(s, script, commit) == FetchFrom(t.copy, t.phase.account, s.phase.at.uids, s.phase.at.j, s.phase.at.last, script);
    }
  }

  /** From any point of the loop the machine can follow the script to where the loop returns. */
  lemma {:induction false} LoopIsPath(s: State, origin: State, script: Script, commit: Fault)
    returns (steps: seq<Step>, t: State)
    requires InLoop(s) && (s.phase.at.Fetching? ==> s.phase.at.j < |s.phase.at.uids|)
    requires origin.phase.Working? && s.phase.at.snapshot == origin.server
    requires s.phase.request == origin.phase.request && s.phase.selected == origin.phase.selected
    ensures Path(s, steps, t) && Returned(origin, t, Rest(s, script, commit))
    decreases |s.phase.at.uids| - s.phase.at.j, if s.phase.at.Committing? then 1 else 0
  {
    var step := if s.phase.at.Fetching? then FetchMessage(script.fetch(s.phase.at.j)) else Commit(commit);
    var s1 := Next(s, step);
    if s.phase.at.Fetching? { FetchFollowsLoop(s, script); } else { CommitFollowsLoop(s, script, commit); }
    if s1.phase.Failing? || s1.phase.at.Done? {
      steps, t := [], s1;
    } else {
      steps, t := LoopIsPath(s1, origin, script, script.commit(s.phase.at.j / BATCH));
    }
    Prepend(s, step, steps, t);
    steps := [step] + steps;
  }

  lemma DownloadIsPath(s: State, script: Script) returns (steps: seq<Step>, t: State)
    requires s.phase.Working? && s.phase.at.Searching? && s.session
    ensures Path(s, steps, t) && Returned(s, t, Download(s.copy, s.phase.account, s.server.live, script))
  {
    var first := if script.search then Search else SyncFails;
    var s1 := Next(s, first);
    if !script.search {
      steps, t := [], s1;
    } else {
      if s1.phase.at.Committing? {
        var a := s.phase.account;
        assert a.(lastUid := a.lastUid) == a;
        assert FetchFrom(MoveCursor(s.copy, a.validity, a.lastUid), a, [], 0, a.lastUid, script)
            == Outcome(MoveCursor(s.copy, a.validity, a.lastUid), a, true);
      }
      steps, t := LoopIsPath(s1, s, script, script.commit(0));
    }
    Prepend(s, first, steps, t);
    steps := [first] + steps;
  }

  /** One call of sync against an unchanging server is a run of the machine with the same outcome. */
  lemma SyncIsPath(s: State, script: Script) returns (steps: seq<Step>, t: State)
    requires s.phase.Working? && s.phase.at.Begin? && s.session
    ensures Path(s, steps, t) && Returned(s, t, RunSync(s.copy, s.phase.account, s.phase.selected, s.server.live, script))
  {
    var first :=
      if s.phase.selected == 0 then SyncFails
      else if s.phase.account.validity == s.phase.selected then Settle else ResetRows(script.reset);
    var s1 := Next(s, first);
    if s1.phase.Failing? {
      steps, t := [], s1;
    } else {
      steps, t := DownloadIsPath(s1, script);
    }
    Prepend(s, first, steps, t);
    steps := [first] + steps;
  }
}
