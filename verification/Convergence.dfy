/** What one sync, and any series of failed and repeated syncs, leaves behind. */
module Convergence {
  import opened Results
  import opened Store
  import opened Sync

  function HighestOf(l: uint32, s: seq<uint32>): uint32 {
    if s == [] then l else Max(HighestOf(l, s[..|s| - 1]), s[|s| - 1])
  }

  lemma {:induction false} HighestOfIsMaximum(l: uint32, s: seq<uint32>)
    ensures HighestOf(l, s) == l || HighestOf(l, s) in s
    ensures l <= HighestOf(l, s) && forall u :: u in s ==> u <= HighestOf(l, s)
  {
    if s != [] {
      HighestOfIsMaximum(l, s[..|s| - 1]);
      forall u | u in s ensures u <= HighestOf(l, s) {
        assert u in s[..|s| - 1] || u == s[|s| - 1];
      }
    }
  }

  lemma HighestOfIs(l: uint32, s: seq<uint32>, t: uint32)
    requires l <= t && (t == l || t in s) && forall u :: u in s ==> u <= t
    ensures HighestOf(l, s) == t
  {
    HighestOfIsMaximum(l, s);
  }

  lemma HighestOfStep(l: uint32, s: seq<uint32>, j: nat)
    requires j < |s|
    ensures HighestOf(l, s[..j + 1]) == Max(HighestOf(l, s[..j]), s[j])
  {
    assert s[..j + 1][..j] == s[..j];
  }

  function Ids(validity: uint32, s: seq<uint32>): set<MessageId> {
    set u | u in s :: MessageId(validity, u)
  }

  lemma IdsStep(validity: uint32, s: seq<uint32>, j: nat)
    requires j < |s|
    ensures Ids(validity, s[..j + 1]) == Ids(validity, s[..j]) + {MessageId(validity, s[j])}
  {
    assert s[..j + 1] == s[..j] + [s[j]];
  }

  function Persisted(c: Copy): AccountRow
    requires c.Copy?
  {
    AccountRow(c.validity, c.lastUid)
  }

  // ----- every outcome of the batched loop -----

  predicate BatchBoundary(b: nat, n: nat) { b <= n && (b == n || b % BATCH == 0) }

  /** From base, the first j messages were saved and the cursor covers the first b of them. */
  predicate Reached(base: Copy, uids: seq<uint32>, b: nat, j: nat, c: Copy)
    requires base.Copy?
  {
    && BatchBoundary(b, |uids|) && b <= j <= |uids| && j <= b + BATCH
    && c == Copy(base.validity, HighestOf(base.lastUid, uids[..b]), base.stored + Ids(base.validity, uids[..j]))
  }

  ghost predicate Partial(base: Copy, uids: seq<uint32>, c: Copy)
    requires base.Copy?
  {
    exists b: nat, j: nat :: Reached(base, uids, b, j, c)
  }

  lemma SaveReaches(base: Copy, uids: seq<uint32>, b: nat, j: nat, c: Copy)
    requires base.Copy? && Reached(base, uids, b, j, c) && j < |uids| && j < b + BATCH
    ensures Reached(base, uids, b, j + 1, SaveInto(c, MessageId(c.validity, uids[j])))
    ensures HighestOf(base.lastUid, uids[..j + 1]) == Max(HighestOf(base.lastUid, uids[..j]), uids[j])
  {
    HighestOfStep(base.lastUid, uids, j);
    IdsStep(base.validity, uids, j);
  }

  lemma CommitReaches(base: Copy, uids: seq<uint32>, b: nat, j: nat, c: Copy)
    requires base.Copy? && Reached(base, uids, b, j, c) && BatchBoundary(j, |uids|)
    ensures Reached(base, uids, j, j, MoveCursor(c, c.validity, HighestOf(base.lastUid, uids[..j])))
  {
  }

  /** One message that is fetched and saved. */
  lemma SavedStep(c: Copy, uids: seq<uint32>, j: nat, lastUid: uint32, script: Script)
    requires c.Copy? && j < |uids| && script.fetch(j).Fetched? && script.fetch(j).fault == Works
    ensures var c1, last := SaveInto(c, MessageId(c.validity, uids[j])), Max(lastUid, uids[j]);
      FetchFrom(c, Persisted(c), uids, j, lastUid, script) ==
        if !ClosesBatch(j, |uids|) then FetchFrom(c1, Persisted(c1), uids, j + 1, last, script)
        else
          var c2 := MoveCursor(c1, c.validity, last);
          match script.commit(j / BATCH)
          case Works => FetchFrom(c2, Persisted(c2), uids, j + 1, last, script)
          case FailsBefore => Outcome(c1, Persisted(c), false)
          case FailsAfter => Outcome(c2, Persisted(c), false)
  {
  }

  /** One message that is not saved, or whose save reports an error. */
  lemma FailedStep(c: Copy, uids: seq<uint32>, j: nat, lastUid: uint32, script: Script)
    requires c.Copy? && j < |uids| && (script.fetch(j).Unavailable? || script.fetch(j).fault != Works)
    ensures var r, c1 := FetchFrom(c, Persisted(c), uids, j, lastUid, script), SaveInto(c, MessageId(c.validity, uids[j]));
      !r.ok && (r.copy == c || (script.fetch(j).Fetched? && r.copy == c1))
  {
  }

  /** Wherever the loop stops, it has saved a prefix and its cursor stands at most one batch behind. */
  lemma {:induction false} LoopOutcomes(base: Copy, uids: seq<uint32>, b: nat, j: nat, c: Copy, script: Script)
    requires base.Copy? && Reached(base, uids, b, j, c)
    requires if j < |uids| then j < b + BATCH && b % BATCH == 0 else b == j
    ensures var r := FetchFrom(c, Persisted(c), uids, j, HighestOf(base.lastUid, uids[..j]), script);
      && Partial(base, uids, r.copy)
      && (r.ok ==> Reached(base, uids, |uids|, |uids|, r.copy) && r.account == Persisted(r.copy))
    decreases |uids| - j
  {
    if j < |uids| {
      SaveReaches(base, uids, b, j, c);
      var c1 := SaveInto(c, MessageId(c.validity, uids[j]));
      if script.fetch(j).Unavailable? || script.fetch(j).fault != Works {
        FailedStep(c, uids, j, HighestOf(base.lastUid, uids[..j]), script);
      } else {
        SavedStep(c, uids, j, HighestOf(base.lastUid, uids[..j]), script);
        BatchOf(b, j);
        if ClosesBatch(j, |uids|) {
          var c2 := MoveCursor(c1, c.validity, HighestOf(base.lastUid, uids[..j + 1]));
          CommitReaches(base, uids, b, j + 1, c1);
          LoopOutcomes(base, uids, j + 1, j + 1, c2, script);
        } else {
          LoopOutcomes(base, uids, b, j + 1, c1, script);
        }
      }
    }
  }

  // ----- the plain form: save everything, then set the cursor to the maximum -----

  /** Everything above the cursor, and the highest message. */
  function Wanted(live: set<uint32>, lastUid: uint32): set<uint32> {
    set u | u in live && (lastUid < u || Highest(live, u))
  }

  /** What the search selects, whatever the cursor: everything above it, and the highest message. */
  lemma SearchSelects(live: set<uint32>, lastUid: uint32)
    ensures Matches(live, SearchStart(lastUid)) == Wanted(live, lastUid)
  {
  }

  function Settle(c: Copy, selected: uint32): Copy
    requires c.Copy?
  {
    if c.validity == selected then c else Reset(c, selected)
  }

  function PlainSync(c: Copy, selected: uint32, live: set<uint32>): Copy
    requires c.Copy?
  {
    var base := Settle(c, selected);
    Copy(selected, HighestOf(base.lastUid, Listing(live)),
         base.stored + Ids(selected, Listing(Wanted(live, base.lastUid))))
  }

  function Selected(c: Copy, live: set<uint32>): seq<uint32>
    requires c.Copy?
  {
    Listing(Matches(live, SearchStart(c.lastUid)))
  }

  lemma HighestWanted(l: uint32, live: set<uint32>)
    ensures HighestOf(l, Listing(Wanted(live, l))) == HighestOf(l, Listing(live))
  {
    var t := HighestOf(l, Listing(live));
    HighestOfIsMaximum(l, Listing(live));
    if t in live { assert Highest(live, t); }
    HighestOfIs(l, Listing(Wanted(live, l)), t);
  }

  lemma HighestFromHigher(l: uint32, m: uint32, live: set<uint32>)
    requires l <= m && (m == l || m in live)
    ensures HighestOf(m, Listing(live)) == HighestOf(l, Listing(live))
  {
    HighestOfIsMaximum(l, Listing(live));
    HighestOfIs(m, Listing(live), HighestOf(l, Listing(live)));
  }

  lemma AllSavedIsPlain(base: Copy, live: set<uint32>, c: Copy)
    requires base.Copy?
    requires var uids := Selected(base, live); Reached(base, uids, |uids|, |uids|, c)
    ensures c == PlainSync(base, base.validity, live)
  {
    var uids := Selected(base, live);
    SearchSelects(live, base.lastUid);
    assert uids[..|uids|] == uids;
    HighestWanted(base.lastUid, live);
  }

  lemma SavedBelowCursor(l: uint32, uids: seq<uint32>, b: nat, u: uint32)
    requires Ascending(uids) && b <= |uids| && u in uids && l < u <= HighestOf(l, uids[..b])
    ensures u in uids[..b]
  {
    HighestOfIsMaximum(l, uids[..b]);
    var t :| 0 <= t < b && uids[t] == HighestOf(l, uids[..b]);
    var s :| 0 <= s < |uids| && uids[s] == u;
    assert s <= t;
    assert uids[..b][s] == u;
  }

  /** The messages a partial state still wants, together with those it saved, are those wanted at first. */
  lemma StillWanted(l: uint32, live: set<uint32>, b: nat, j: nat, m: uint32)
    requires var uids := Listing(Wanted(live, l)); b <= j <= |uids| && m == HighestOf(l, uids[..b])
    ensures forall u :: u in Wanted(live, l) <==> u in Listing(Wanted(live, l))[..j] || u in Wanted(live, m)
    ensures l <= m && (m == l || m in live)
  {
    var uids := Listing(Wanted(live, l));
    HighestOfIsMaximum(l, uids[..b]);
    forall u | u in Wanted(live, l) && u !in Wanted(live, m) ensures u in uids[..j] {
      assert l < u <= m;
      SavedBelowCursor(l, uids, b, u);
      assert u in uids[..b];
    }
    if m in uids[..b] { assert m in uids; }
  }

  lemma Regroup<T>(a: set<T>, b: set<T>, c: set<T>)
    ensures a + b + c == a + (b + c)
  {
  }

  lemma SameIds(validity: uint32, s: seq<uint32>, t: seq<uint32>, all: seq<uint32>)
    requires forall u :: u in all <==> u in s || u in t
    ensures Ids(validity, s) + Ids(validity, t) == Ids(validity, all)
  {
  }

  /** Continuing from any partial state aims at the same final state. */
  lemma PartialKeepsGoal(base: Copy, live: set<uint32>, c: Copy)
    requires base.Copy? && Partial(base, Selected(base, live), c)
    ensures PlainSync(c, base.validity, live) == PlainSync(base, base.validity, live)
  {
    var uids := Selected(base, live);
    var b: nat, j: nat :| Reached(base, uids, b, j, c);
    SearchSelects(live, base.lastUid);
    StillWanted(base.lastUid, live, b, j, c.lastUid);
    HighestFromHigher(base.lastUid, c.lastUid, live);
    var rest := Listing(Wanted(live, c.lastUid));
    assert forall u :: u in rest <==> u in Wanted(live, c.lastUid);
    SameIds(base.validity, uids[..j], rest, uids);
    Regroup(base.stored, Ids(base.validity, uids[..j]), Ids(base.validity, rest));
  }

  lemma SyncOutcomes(c: Copy, selected: uint32, live: set<uint32>, script: Script)
    requires c.Copy?
    ensures var r := RunSync(c, Persisted(c), selected, live, script);
      && (r.copy == c || Partial(Settle(c, selected), Selected(Settle(c, selected), live), r.copy))
      && (r.ok ==> selected != 0 && r.copy == PlainSync(c, selected, live) && r.account == Persisted(r.copy))
  {
    var base := Settle(c, selected);
    var uids := Selected(base, live);
    assert Ids(base.validity, uids[..0]) == {};
    assert Reached(base, uids, 0, 0, base);
    LoopOutcomes(base, uids, 0, 0, base, script);
    var r := RunSync(c, Persisted(c), selected, live, script);
    if r.ok {
      assert Reached(base, uids, |uids|, |uids|, r.copy);
      AllSavedIsPlain(base, live, r.copy);
    }
  }

  // ----- retries -----

  /** A series of attempts, each starting from the persisted cursor and ending anywhere. */
  function Attempts(c: Copy, selected: uint32, live: set<uint32>, scripts: seq<Script>): (r: Copy)
    requires c.Copy?
    decreases |scripts|
  {
    if scripts == [] then c
    else
      SyncOutcomes(c, selected, live, scripts[0]);
      Attempts(RunSync(c, Persisted(c), selected, live, scripts[0]).copy, selected, live, scripts[1..])
  }

  lemma {:induction false} AttemptsKeepGoal(c: Copy, selected: uint32, live: set<uint32>, scripts: seq<Script>)
    requires c.Copy?
    ensures Attempts(c, selected, live, scripts).Copy?
    ensures PlainSync(Attempts(c, selected, live, scripts), selected, live) == PlainSync(c, selected, live)
    decreases |scripts|
  {
    if scripts != [] {
      SyncOutcomes(c, selected, live, scripts[0]);
      var c' := RunSync(c, Persisted(c), selected, live, scripts[0]).copy;
      if c' != c { PartialKeepsGoal(Settle(c, selected), live, c'); }
      AttemptsKeepGoal(c', selected, live, scripts[1..]);
    }
  }

  /**
    For a fixed mailbox, attempts that fail anywhere followed by one that succeeds leave exactly what
    "save all, then set the cursor to the maximum" leaves.
   */
  lemma RetriesConverge(c: Copy, selected: uint32, live: set<uint32>, scripts: seq<Script>, last: Script)
    requires c.Copy?
    ensures var d := Attempts(c, selected, live, scripts);
      d.Copy? && var r := RunSync(d, Persisted(d), selected, live, last);
      r.ok ==> r.copy == PlainSync(c, selected, live)
  {
    AttemptsKeepGoal(c, selected, live, scripts);
    SyncOutcomes(Attempts(c, selected, live, scripts), selected, live, last);
  }

  ghost predicate NothingFails(script: Script) {
    && script.reset == Works && script.search
    && forall k :: script.fetch(k).Fetched? && script.fetch(k).fault == Works && script.commit(k) == Works
  }

  lemma {:induction false} LoopSucceeds(c: Copy, uids: seq<uint32>, j: nat, account: AccountRow, lastUid: uint32, script: Script)
    requires c.Copy? && j <= |uids| && NothingFails(script)
    ensures FetchFrom(c, account, uids, j, lastUid, script).ok
    decreases |uids| - j
  {
    if j < |uids| {
      assert script.fetch(j).Fetched? && script.commit(j / BATCH) == Works;
      var c1 := SaveInto(c, MessageId(account.validity, uids[j]));
      var last := Max(lastUid, uids[j]);
      LoopSucceeds(c1, uids, j + 1, account, last, script);
      LoopSucceeds(MoveCursor(c1, account.validity, last), uids, j + 1, account.(lastUid := last), last, script);
    }
  }

  /** An uninterrupted sync succeeds and is the plain form. */
  lemma UninterruptedIsPlain(c: Copy, selected: uint32, live: set<uint32>, script: Script)
    requires c.Copy? && selected != 0 && NothingFails(script)
    ensures RunSync(c, Persisted(c), selected, live, script)
         == Outcome(PlainSync(c, selected, live), Persisted(PlainSync(c, selected, live)), true)
  {
    var base := Settle(c, selected);
    LoopSucceeds(base, Selected(base, live), 0, Persisted(base), base.lastUid, script);
    assert script.commit(0) == Works;
    SyncOutcomes(c, selected, live, script);
  }

  // ----- the order of the search result -----

  /** No listed message at or below the cursor is missing. */
  predicate NoGapOver(c: Copy, uids: seq<uint32>)
    requires c.Copy?
  {
    forall u :: u in uids && u <= c.lastUid ==> MessageId(c.validity, u) in c.stored
  }

  function LoopResult(c: Copy, uids: seq<uint32>, script: Script): Copy
    requires c.Copy?
  {
    FetchFrom(c, Persisted(c), uids, 0, c.lastUid, script).copy
  }

  predicate SafeUnder(c: Copy, uids: seq<uint32>, script: Script)
    requires c.Copy?
  {
    var r := LoopResult(c, uids, script);
    r.Copy? && NoGapOver(r, uids)
  }

  /** Distinct messages above the cursor, none of them stored. */
  predicate Unseen(c: Copy, uids: seq<uint32>)
    requires c.Copy?
  {
    && (forall u :: u in uids ==> c.lastUid < u && MessageId(c.validity, u) !in c.stored)
    && (forall i, j :: 0 <= i < j < |uids| ==> uids[i] != uids[j])
  }

  /** Whatever follows a closed batch is above everything in it. */
  predicate BatchSorted(l: uint32, uids: seq<uint32>) {
    forall b, s :: 0 < b <= s < |uids| && b % BATCH == 0 ==> HighestOf(l, uids[..b]) < uids[s]
  }

  function StopAt(b: nat): Script {
    Script(Works, true, k => if k < b then Fetched(ZERO_TIME, None, 0, Works) else Unavailable, _ => Works)
  }

  lemma {:induction false} RunsUntil(base: Copy, uids: seq<uint32>, b: nat, j: nat, c: Copy, stop: nat)
    requires base.Copy? && stop < |uids| && stop % BATCH == 0
    requires j <= stop && Reached(base, uids, b, j, c)
    requires if j < stop then j < b + BATCH && b % BATCH == 0 else b == j
    ensures Reached(base, uids, stop, stop,
                    FetchFrom(c, Persisted(c), uids, j, HighestOf(base.lastUid, uids[..j]), StopAt(stop)).copy)
    decreases stop - j
  {
    if j < stop {
      SavedStep(c, uids, j, HighestOf(base.lastUid, uids[..j]), StopAt(stop));
      BatchOf(b, j);
      SaveReaches(base, uids, b, j, c);
      var c1 := SaveInto(c, MessageId(c.validity, uids[j]));
      if ClosesBatch(j, |uids|) {
        CommitReaches(base, uids, b, j + 1, c1);
        RunsUntil(base, uids, j + 1, j + 1, MoveCursor(c1, c.validity, HighestOf(base.lastUid, uids[..j + 1])), stop);
      } else {
        RunsUntil(base, uids, b, j + 1, c1, stop);
      }
    }
  }

  lemma SortedLeavesNoGap(base: Copy, uids: seq<uint32>, r: Copy)
    requires base.Copy? && BatchSorted(base.lastUid, uids) && Partial(base, uids, r)
    requires forall u :: u in uids ==> base.lastUid < u
    ensures r.Copy? && NoGapOver(r, uids)
  {
    var b: nat, j: nat :| Reached(base, uids, b, j, r);
    assert b == 0 ==> r.lastUid == base.lastUid;
    forall s | 0 <= s < |uids| && uids[s] <= r.lastUid ensures MessageId(r.validity, uids[s]) in r.stored {
      assert uids[s] in uids;
      assert s < j;
      assert uids[..j][s] == uids[s];
    }
  }

  lemma UnsortedLeavesGap(base: Copy, uids: seq<uint32>, b: nat, s: nat, r: Copy)
    requires base.Copy? && Unseen(base, uids) && Reached(base, uids, b, b, r)
    requires b <= s < |uids| && uids[s] <= r.lastUid
    ensures !NoGapOver(r, uids)
  {
    assert uids[s] in uids && uids[s] !in uids[..b];
  }

  /**
    The loop is safe for a search result in any order exactly when the result is sorted across batch
    boundaries: then no failure leaves a gap, and otherwise some failure does.
   */
  lemma SafeOrders(c: Copy, uids: seq<uint32>)
    requires c.Copy? && Unseen(c, uids)
    ensures BatchSorted(c.lastUid, uids) <==> forall script :: SafeUnder(c, uids, script)
  {
    assert Ids(c.validity, uids[..0]) == {} && Reached(c, uids, 0, 0, c);
    if BatchSorted(c.lastUid, uids) {
      forall script ensures SafeUnder(c, uids, script) {
        LoopOutcomes(c, uids, 0, 0, c, script);
        SortedLeavesNoGap(c, uids, LoopResult(c, uids, script));
      }
    } else {
      var b, s :| 0 < b <= s < |uids| && b % BATCH == 0 && !(HighestOf(c.lastUid, uids[..b]) < uids[s]);
      assert !SafeUnder(c, uids, StopAt(b)) by {
        RunsUntil(c, uids, 0, 0, c, b);
        UnsortedLeavesGap(c, uids, b, s, LoopResult(c, uids, StopAt(b)));
      }
    }
  }

  /** A result that lists a high UID first can lose a message: the cursor passes it unsaved. */
  lemma UnsortedResultLosesMail()
    ensures var uids := seq(26, i requires 0 <= i < 26 => if i == 0 then 26 as uint32 else i);
      !SafeUnder(Copy(1, 0, {}), uids, StopAt(25))
  {
    var uids := seq(26, i requires 0 <= i < 26 => if i == 0 then 26 as uint32 else i);
    var c := Copy(1, 0, {});
    HighestOfIsMaximum(0, uids[..25]);
    assert uids[..25][0] == 26 && uids[25] == 25;
    assert Ids(1, uids[..0]) == {} && Reached(c, uids, 0, 0, c);
    RunsUntil(c, uids, 0, 0, c, 25);
    UnsortedLeavesGap(c, uids, 25, 25, LoopResult(c, uids, StopAt(25)));
  }
}
