/** The invariant of the monitor holds in every reachable state; what follows from it. */
module MonitorSafety {
  import opened Results
  import opened Store
  import opened Sync
  import opened Monitor

  // ----- counting -----

  lemma {:induction false} SubsetSize<T>(a: set<T>, b: set<T>)
    requires a <= b
    ensures |a| <= |b|
  {
    if x :| x in a {
      SubsetSize(a - {x}, b - {x});
    }
  }

  /** A set that contains a strictly ascending list is at least as large as the list. */
  lemma {:induction false} ListFits(s: seq<uint32>, a: set<uint32>)
    requires Ascending(s) && forall i :: 0 <= i < |s| ==> s[i] in a
    ensures |s| <= |a|
  {
    if s != [] {
      var x := s[|s| - 1];
      ListFits(s[..|s| - 1], a - {x});
    }
  }

  /** A set whose elements all occur in a list is no larger than the list. */
  lemma {:induction false} SetFits(a: set<uint32>, s: seq<uint32>)
    requires forall u :: u in a ==> u in s
    ensures |a| <= |s|
  {
    if s == [] {
      assert a == {};
    } else {
      var x := s[|s| - 1];
      SetFits(a - {x}, s[..|s| - 1]);
    }
  }

  // ----- the server moves -----

  lemma AppendKeepsInv(s: State, uid: uint32)
    requires Inv(s) && Enabled(s, Append(uid))
    ensures Inv(Next(s, Append(uid)))
  {
    var v' := Next(s, Append(uid)).server;
    if Aligned(s.server, s.copy) {
      assert !Has(s.copy, uid);
      assert Ahead(v', s.copy) == Ahead(s.server, s.copy);
    }
  }

  lemma ExpungeKeepsInv(s: State, gone: set<uint32>)
    requires Inv(s)
    ensures Inv(Next(s, Expunge(gone)))
  {
    var v' := Next(s, Expunge(gone)).server;
    if s.copy.Copy? {
      assert Ahead(v', s.copy) <= Ahead(s.server, s.copy);
      SubsetSize(Ahead(v', s.copy), Ahead(s.server, s.copy));
    }
  }

  // ----- search -----

  lemma HighestExists(live: set<uint32>)
    requires live != {}
    ensures exists h :: Highest(live, h)
  {
    var l := Listing(live);
    var x :| x in live;
    assert x in l;
    var h := l[|l| - 1];
    assert h in l;
    forall w | w in live ensures w <= h {
      assert w in l;
    }
    assert Highest(live, h);
  }

  lemma SearchLists(live: set<uint32>, lastUid: uint32, uids: seq<uint32>)
    requires uids == Listing(Matches(live, SearchStart(lastUid)))
    ensures Ascending(uids)
    ensures forall u :: u in uids ==> u in live
    ensures forall u :: u in live && lastUid < u ==> u in uids
    ensures live != {} ==> uids != []
  {
    if live != {} {
      HighestExists(live);
      var h :| Highest(live, h);
      assert h in uids;
    }
  }

  lemma MatchAbove(live: set<uint32>, lastUid: uint32, uids: seq<uint32>, i: nat, t: nat)
    requires uids == Listing(Matches(live, SearchStart(lastUid))) && i <= t < |uids| && lastUid < uids[t]
    ensures uids[i] in live && lastUid < uids[i] <= uids[t]
  {
    assert uids[i] in Matches(live, SearchStart(lastUid));
    assert uids[t] in Matches(live, SearchStart(lastUid));
  }

  lemma FewAhead(v: Server, c: Copy, uids: seq<uint32>, t: nat)
    requires c.Copy? && Aligned(v, c) && BoundedRework(v, c)
    requires uids == Listing(Matches(v.live, SearchStart(c.lastUid)))
    requires t < |uids| && uids[t] in Ahead(v, c)
    ensures t < BATCH
  {
    SearchLists(v.live, c.lastUid, uids);
    var some := uids[..t + 1];
    forall i | 0 <= i < |some| ensures some[i] in Ahead(v, c) {
      MatchAbove(v.live, c.lastUid, uids, i, t);
    }
    ListFits(some, Ahead(v, c));
  }

  /** At most a batch is ahead of the cursor, and it is the start of the list. */
  lemma AheadIsFirstBatch(v: Server, c: Copy, uids: seq<uint32>)
    requires c.Copy? && BoundedRework(v, c) && Aligned(v, c)
    requires uids == Listing(Matches(v.live, SearchStart(c.lastUid)))
    ensures forall u :: u in Ahead(v, c) ==> u in uids[0..End(0, |uids|)]
  {
    SearchLists(v.live, c.lastUid, uids);
    forall u | u in Ahead(v, c) ensures u in uids[0..End(0, |uids|)] {
      var t :| 0 <= t < |uids| && uids[t] == u;
      FewAhead(v, c, uids, t);
      assert uids[0..End(0, |uids|)][t] == u;
    }
  }

  lemma SearchKeepsInv(s: State)
    requires Inv(s) && Enabled(s, Search)
    ensures Inv(Next(s, Search))
  {
    if s.copy.Copy? {
      var uids := Listing(Matches(s.server.live, SearchStart(s.copy.lastUid)));
      SearchLists(s.server.live, s.copy.lastUid, uids);
      AheadIsFirstBatch(s.server, s.copy, uids);
    }
  }

  // ----- fetch -----

  lemma LowerIsBefore(uids: seq<uint32>, j: nat, w: uint32)
    requires Ascending(uids) && j < |uids| && w in uids && w < uids[j]
    ensures exists t :: 0 <= t < j && uids[t] == w
  {
    var t :| 0 <= t < |uids| && uids[t] == w;
    assert t < j;
  }

  lemma SaveKeepsRows(now: Server, c: Copy, v: Server, uids: seq<uint32>, start: nat, j: nat, last: uint32)
    requires RowsOk(now, c) && c.Copy? && SnapshotOk(now, c, v) && ListOk(c, v, uids, start, j, last)
    requires AheadInBatch(now, c, uids, start) && j < End(start, |uids|)
    ensures var c' := SaveInto(c, MessageId(c.validity, uids[j]));
      && RowsOk(now, c') && AheadInBatch(now, c', uids, start)
  {
    var u := uids[j];
    var c' := SaveInto(c, MessageId(c.validity, u));
    var batch := uids[start..End(start, |uids|)];
    assert batch[j - start] == u;
    assert u in v.live;
    if Aligned(now, c) {
      forall x | x in Ahead(now, c') ensures x in batch {
        assert x == u || x in Ahead(now, c);
      }
      SetFits(Ahead(now, c'), batch);
      forall x, w | x in now.live && Has(c', x) && w in now.live && c.lastUid < w < x ensures Has(c', w) {
        if !Has(c, x) {
          assert x == u && w in v.live && w in uids;
          LowerIsBefore(uids, j, w);
        }
      }
    }
  }

  lemma SaveKeepsList(c: Copy, v: Server, uids: seq<uint32>, start: nat, j: nat, last: uint32)
    requires c.Copy? && ListOk(c, v, uids, start, j, last) && j < End(start, |uids|)
    ensures ListOk(SaveInto(c, MessageId(c.validity, uids[j])), v, uids, start, j + 1, Max(last, uids[j]))
  {
    var c' := SaveInto(c, MessageId(c.validity, uids[j]));
    assert forall u :: Has(c, u) ==> Has(c', u);
    if j > 0 { assert uids[j - 1] < uids[j]; }
  }

  lemma FailedFetchKeepsInv(s: State, fetch: Fetch)
    requires Inv(s) && Enabled(s, FetchMessage(fetch))
    requires fetch.Unavailable? || fetch.fault != Works || s.copy.Gone?
    ensures Inv(Next(s, FetchMessage(fetch)))
  {
    var p := s.phase;
    if fetch.Fetched? && s.copy.Copy? {
      SaveKeepsRows(s.server, s.copy, p.at.snapshot, p.at.uids, p.at.start, p.at.j, p.at.last);
    }
  }

  lemma SaveAdvances(now: Server, c: Copy, at: Progress)
    requires c.Copy? && at.Fetching? && RowsOk(now, c) && ProgressOk(now, c, at)
    ensures at.j < |at.uids|
    ensures var c' := SaveInto(c, MessageId(c.validity, at.uids[at.j]));
      RowsOk(now, c') && ProgressOk(now, c', Advanced(at))
  {
    SaveKeepsRows(now, c, at.snapshot, at.uids, at.start, at.j, at.last);
    SaveKeepsList(c, at.snapshot, at.uids, at.start, at.j, at.last);
    BatchOf(at.start, at.j);
    var c', next := SaveInto(c, MessageId(c.validity, at.uids[at.j])), Advanced(at);
    assert SnapshotOk(now, c', next.snapshot) && AheadInBatch(now, c', next.uids, next.start);
    assert next.Committing? <==> next.j == End(next.start, |next.uids|);
  }

  lemma ProgressKeepsInv(s: State, c: Copy, at: Progress)
    requires Inv(s) && s.phase.Working? && s.phase.at.Fetching? && s.copy.Copy? && c.Copy?
    requires c.validity == s.copy.validity && c.lastUid == s.copy.lastUid && RowsOk(s.server, c)
    requires (at.Fetching? || at.Committing?) && at.snapshot == s.phase.at.snapshot && ProgressOk(s.server, c, at)
    ensures Inv(s.(copy := c, phase := s.phase.(at := at)))
  {
  }

  lemma SavedMessageKeepsInv(s: State, fetch: Fetch)
    requires Inv(s) && Enabled(s, FetchMessage(fetch))
    requires fetch.Fetched? && fetch.fault == Works && s.copy.Copy?
    ensures Inv(Next(s, FetchMessage(fetch)))
  {
    var at := s.phase.at;
    SaveAdvances(s.server, s.copy, at);
    ProgressKeepsInv(s, SaveInto(s.copy, MessageId(s.copy.validity, at.uids[at.j])), Advanced(at));
  }

  lemma FetchKeepsInv(s: State, fetch: Fetch)
    requires Inv(s) && Enabled(s, FetchMessage(fetch))
    ensures Inv(Next(s, FetchMessage(fetch)))
  {
    if fetch.Unavailable? || fetch.fault != Works || s.copy.Gone? {
      FailedFetchKeepsInv(s, fetch);
    } else {
      SavedMessageKeepsInv(s, fetch);
    }
  }

  // ----- commit -----

  lemma NothingAheadIsBounded(now: Server, c: Copy)
    requires c.Copy? && Ahead(now, c) == {}
    ensures BoundedRework(now, c)
  {
    assert forall u :: u in now.live && c.lastUid < u && Has(c, u) ==> u in Ahead(now, c);
  }

  lemma CommitKeepsRows(now: Server, c: Copy, v: Server, uids: seq<uint32>, start: nat, j: nat, last: uint32)
    requires RowsOk(now, c) && c.Copy? && SnapshotOk(now, c, v) && ListOk(c, v, uids, start, j, last)
    requires AheadInBatch(now, c, uids, start) && j == End(start, |uids|)
    ensures RowsOk(now, MoveCursor(c, c.validity, last)) && SnapshotOk(now, MoveCursor(c, c.validity, last), v)
    ensures Aligned(now, c) ==> Ahead(now, MoveCursor(c, c.validity, last)) == {}
  {
    var c' := MoveCursor(c, c.validity, last);
    if j > 0 { assert uids[j - 1] in uids; }
    if Aligned(now, c) {
      forall u | u in now.live && u <= last ensures Has(c', u) {
        if c.lastUid < u {
          assert u in v.live && u in uids;
          if u < uids[j - 1] { LowerIsBefore(uids, j - 1, u); }
        }
      }
      forall u | u in Ahead(now, c) ensures u <= last {
        var batch := uids[start..j];
        var t :| 0 <= t < |batch| && batch[t] == u;
        assert uids[start + t] == u;
      }
      forall u | u in now.live && last < u ensures !Has(c', u) {
        assert u !in Ahead(now, c);
      }
      assert Ahead(now, c') == {};
      NothingAheadIsBounded(now, c');
    }
  }

  lemma CommitKeepsList(c: Copy, v: Server, uids: seq<uint32>, start: nat, j: nat, last: uint32)
    requires c.Copy? && ListOk(c, v, uids, start, j, last) && j == End(start, |uids|)
    ensures var c' := MoveCursor(c, c.validity, last);
      if j == |uids| then AllStored(v, c') else ListOk(c', v, uids, j, j, last)
  {
    var c' := MoveCursor(c, c.validity, last);
    assert forall u :: Has(c, u) ==> Has(c', u);
    if j == |uids| {
      forall u | u in v.live ensures Has(c', u) && u <= c'.lastUid {
        if u in uids {
          var t :| 0 <= t < |uids| && uids[t] == u;
        }
      }
    }
  }

  lemma CommitAdvances(now: Server, c: Copy, at: Progress)
    requires c.Copy? && at.Committing? && RowsOk(now, c) && ProgressOk(now, c, at)
    ensures var c' := MoveCursor(c, c.validity, at.last);
      RowsOk(now, c') && ProgressOk(now, c', AfterBatch(at))
  {
    CommitKeepsRows(now, c, at.snapshot, at.uids, at.start, at.j, at.last);
    CommitKeepsList(c, at.snapshot, at.uids, at.start, at.j, at.last);
  }

  lemma FailedCommitKeepsInv(s: State, fault: Fault)
    requires Inv(s) && Enabled(s, Commit(fault)) && fault != Works
    ensures Inv(Next(s, Commit(fault)))
  {
    if s.copy.Copy? { CommitAdvances(s.server, s.copy, s.phase.at); }
  }

  lemma BatchKeepsInv(s: State, c: Copy, at: Progress)
    requires Inv(s) && s.phase.Working? && s.phase.at.Committing? && s.copy.Copy? && c.Copy?
    requires c.validity == s.copy.validity && RowsOk(s.server, c)
    requires (at.Fetching? || at.Done?) && at.snapshot == s.phase.at.snapshot && ProgressOk(s.server, c, at)
    ensures Inv(s.(copy := c, phase := s.phase.(account := s.phase.account.(lastUid := c.lastUid), at := at)))
  {
  }

  lemma CommittedState(s: State)
    requires Enabled(s, Commit(Works)) && s.copy.Copy? && InStep(s)
    ensures var c := MoveCursor(s.copy, s.copy.validity, s.phase.at.last);
      Next(s, Commit(Works)) ==
        s.(copy := c, phase := s.phase.(account := s.phase.account.(lastUid := c.lastUid), at := AfterBatch(s.phase.at)))
  {
  }

  lemma CommitKeepsInv(s: State, fault: Fault)
    requires Inv(s) && Enabled(s, Commit(fault))
    ensures Inv(Next(s, Commit(fault)))
  {
    if fault != Works {
      FailedCommitKeepsInv(s, fault);
    } else if s.copy.Copy? {
      CommittedState(s);
      CommitAdvances(s.server, s.copy, s.phase.at);
      BatchKeepsInv(s, MoveCursor(s.copy, s.copy.validity, s.phase.at.last), AfterBatch(s.phase.at));
    }
  }

  // ----- every run -----

  lemma EnvironmentStepKeepsInv(s: State, step: Step)
    requires Inv(s) && Enabled(s, step)
    requires step.Renumber? || step.LoseSession? || step.DeleteRow? || step.Crash?
    ensures Inv(Next(s, step))
  {
  }

  lemma ConnectionStepKeepsInv(s: State, step: Step)
    requires Inv(s) && Enabled(s, step)
    requires step.Load? || step.ConnectFails? || step.Select? || step.Retry? || step.Exit?
    ensures Inv(Next(s, step))
  {
  }

  lemma ResetKeepsRows(now: Server, c: Copy, selected: uint32)
    requires RowsOk(now, c) && selected <= now.validity
    ensures RowsOk(now, Reset(c, selected))
  {
    if c.Copy? {
      assert Ahead(now, Reset(c, selected)) == {};
    }
  }

  lemma FailedResetKeepsInv(s: State, fault: Fault)
    requires Inv(s) && Enabled(s, ResetRows(fault)) && fault != Works
    ensures Inv(Next(s, ResetRows(fault)))
  {
    ResetKeepsRows(s.server, s.copy, s.phase.selected);
  }

  lemma ResetKeepsInv(s: State, fault: Fault)
    requires Inv(s) && Enabled(s, ResetRows(fault))
    ensures Inv(Next(s, ResetRows(fault)))
  {
    if fault != Works {
      FailedResetKeepsInv(s, fault);
    } else {
      ResetKeepsRows(s.server, s.copy, s.phase.selected);
    }
  }

  lemma SyncStepKeepsInv(s: State, step: Step)
    requires Inv(s) && Enabled(s, step)
    requires step.Settle? || step.SyncFails?
    ensures Inv(Next(s, step))
  {
  }

  lemma IdleStepKeepsInv(s: State, step: Step)
    requires Inv(s) && Enabled(s, step)
    requires step.IdleFails? || step.TakeToken? || step.StopIdle? || step.StopIdleFails? || step.Exists?
    ensures Inv(Next(s, step))
  {
  }

  lemma RequestStepKeepsInv(s: State, step: Step)
    requires Inv(s) && Enabled(s, step)
    requires step.FinishSync? || step.TakeRequest? || step.ReplyFailure?
    ensures Inv(Next(s, step))
  {
  }

  lemma OfferKeepsInv(s: State, step: Step)
    requires Inv(s) && Enabled(s, step) && (step.Offer? || step.Collect?)
    ensures Inv(Next(s, step))
  {
  }

  lemma WithdrawKeepsInv(s: State, step: Step)
    requires Inv(s) && Enabled(s, step) && step.Withdraw?
    ensures Inv(Next(s, step))
  {
  }

  predicate LoopStep(step: Step) {
    step.Search? || step.FetchMessage? || step.Commit? || step.ResetRows? || step.Settle? || step.SyncFails?
  }

  lemma LoopStepKeepsInv(s: State, step: Step)
    requires Inv(s) && Enabled(s, step) && LoopStep(step)
    ensures Inv(Next(s, step))
  {
    match step
    case Search => SearchKeepsInv(s);
    case FetchMessage(fetch) => FetchKeepsInv(s, fetch);
    case Commit(fault) => CommitKeepsInv(s, fault);
    case ResetRows(fault) => ResetKeepsInv(s, fault);
    case Settle | SyncFails => SyncStepKeepsInv(s, step);
  }

  predicate ServerStep(step: Step) {
    step.Append? || step.Expunge? || step.Renumber? || step.LoseSession? || step.DeleteRow? || step.Crash?
  }

  lemma ServerStepKeepsInv(s: State, step: Step)
    requires Inv(s) && Enabled(s, step) && ServerStep(step)
    ensures Inv(Next(s, step))
  {
    match step
    case Append(uid) => AppendKeepsInv(s, uid);
    case Expunge(gone) => ExpungeKeepsInv(s, gone);
    case Renumber(_) | LoseSession | DeleteRow | Crash => EnvironmentStepKeepsInv(s, step);
  }

  /** Each step of the machine keeps the invariant. */
  lemma StepKeepsInv(s: State, step: Step)
    requires Inv(s) && Enabled(s, step)
    ensures Inv(Next(s, step))
  {
    if LoopStep(step) {
      LoopStepKeepsInv(s, step);
    } else if ServerStep(step) {
      ServerStepKeepsInv(s, step);
    } else {
      match step
      case Load | ConnectFails | Select(_) | Retry | Exit => ConnectionStepKeepsInv(s, step);
      case IdleFails | TakeToken | StopIdle | StopIdleFails | Exists => IdleStepKeepsInv(s, step);
      case FinishSync | TakeRequest(_) | ReplyFailure => RequestStepKeepsInv(s, step);
      case Offer(_) | Collect(_) => OfferKeepsInv(s, step);
      case Withdraw(_) => WithdrawKeepsInv(s, step);
    }
  }

  /** A run: from an initial state, every state follows from the one before by an enabled step. */
  ghost predicate Run(trace: seq<State>, steps: seq<Step>) {
    && |trace| == |steps| + 1 && Initial(trace[0])
    && forall i :: 0 <= i < |steps| ==> Enabled(trace[i], steps[i]) && trace[i + 1] == Next(trace[i], steps[i])
  }

  lemma {:induction false} Safety(trace: seq<State>, steps: seq<Step>, i: nat)
    requires Run(trace, steps) && i < |trace|
    ensures Inv(trace[i])
  {
    if i > 0 {
      Safety(trace, steps, i - 1);
      StepKeepsInv(trace[i - 1], steps[i - 1]);
    }
  }
}
