/** One catch-up or incremental sync of an account: search above the cursor, fetch in batches, move the cursor. */
module Sync {
  import opened Results
  import opened Store
  import opened TimeText

  const BATCH: nat := 25

  // ----- what the server answers -----

  /** account.LastUID+1 in uint32 arithmetic. */
  function SearchStart(lastUid: uint32): uint32 {
    (lastUid + 1) % 0x1_0000_0000
  }

  predicate Highest(live: set<uint32>, u: uint32) {
    u in live && forall w :: w in live ==> w <= u
  }

  /**
    The UIDs that UID SEARCH start:* selects, by section 6.4.8 of RFC 3501: the highest UID always
    matches. A start of 0 is sent as "*" and selects the highest UID alone.
   */
  function Matches(live: set<uint32>, start: uint32): set<uint32> {
    set u | u in live && (Highest(live, u) || (start != 0 && start <= u))
  }

  predicate Ascending(s: seq<uint32>) {
    forall i, j :: 0 <= i < j < |s| ==> s[i] < s[j]
  }

  lemma {:induction false} FindLowest(s: set<uint32>) returns (m: uint32)
    requires s != {}
    ensures m in s && forall w :: w in s ==> m <= w
  {
    var x: uint32 :| x in s;
    m := x;
    var rest := s - {x};
    if rest == {} {
      forall w | w in s ensures w == x {
        assert w in rest || w == x;
      }
    } else {
      var k := FindLowest(rest);
      if k < x { m := k; }
      forall w | w in s ensures m <= w {
        assert w == x || w in rest;
      }
    }
  }

  lemma LowestExists(s: set<uint32>)
    requires s != {}
    ensures exists m :: m in s && forall w :: w in s ==> m <= w
  {
    var _ := FindLowest(s);
  }

  function Lowest(s: set<uint32>): (m: uint32)
    requires s != {}
    ensures m in s && forall w :: w in s ==> m <= w
  {
    LowestExists(s);
    var m :| m in s && forall w :: w in s ==> m <= w;
    m
  }

  /** The search result as the library returns it: every match once, in ascending order. */
  function Listing(s: set<uint32>): (l: seq<uint32>)
    ensures Ascending(l) && forall u :: u in l <==> u in s
    decreases |s|
  {
    if s == {} then []
    else
      var m := Lowest(s);
      var rest := Listing(s - {m});
      assert forall i :: 0 <= i < |rest| ==> rest[i] in s - {m};
      [m] + rest
  }

  // ----- how each call ends -----

  /** Fetching, downloading and parsing one message fails, or yields a message whose save ends in fault. */
  datatype Fetch =
    | Unavailable
    | Fetched(receivedAt: Instant, sentAt: Option<Instant>, attachments: nat, fault: Fault)

  /** The outcome of every call of one sync: the reset, the search, the k-th message, the commit of batch k. */
  datatype Script = Script(reset: Fault, search: bool, fetch: nat -> Fetch, commit: nat -> Fault)

  datatype Outcome = Outcome(copy: Copy, account: AccountRow, ok: bool)

  function Max(a: uint32, b: uint32): uint32 { if a < b then b else a }

  function Apply(before: Copy, after: Copy, fault: Fault): Copy {
    if fault == FailsBefore then before else after
  }

  /** CompleteSync closes a batch after the message at index j. */
  predicate ClosesBatch(j: nat, n: nat) { j + 1 == n || (j + 1) % BATCH == 0 }

  /** The batched loop from message j on, with lastUid the highest UID saved so far. */
  function FetchFrom(c: Copy, account: AccountRow, uids: seq<uint32>, j: nat, lastUid: uint32, script: Script): Outcome
    requires j <= |uids|
    decreases |uids| - j, 0
  {
    if j == |uids| then Outcome(c, account, true)
    else match script.fetch(j)
      case Unavailable => Outcome(c, account, false)
      case Fetched(_, _, _, fault) =>
        var c1 := Apply(c, SaveInto(c, MessageId(account.validity, uids[j])), fault);
        if fault != Works || c.Gone? then Outcome(c1, account, false)
        else
          var last := Max(lastUid, uids[j]);
          if !ClosesBatch(j, |uids|) then FetchFrom(c1, account, uids, j + 1, last, script)
          else CloseBatch(c1, account, uids, j + 1, last, script, script.commit(j / BATCH))
  }

  /** CompleteSync after the messages before j, and the batches that follow. */
  function CloseBatch(c: Copy, account: AccountRow, uids: seq<uint32>, j: nat, lastUid: uint32, script: Script, fault: Fault): Outcome
    requires j <= |uids|
    decreases |uids| - j, 1
  {
    var c1 := Apply(c, MoveCursor(c, account.validity, lastUid), fault);
    if fault != Works then Outcome(c1, account, false)
    else FetchFrom(c1, account.(lastUid := lastUid), uids, j, lastUid, script)
  }

  /** The part of a sync after UIDVALIDITY has been settled. */
  function Download(c: Copy, account: AccountRow, live: set<uint32>, script: Script): Outcome {
    if !script.search then Outcome(c, account, false)
    else
      var uids := Listing(Matches(live, SearchStart(account.lastUid)));
      if uids == [] then
        Outcome(Apply(c, MoveCursor(c, account.validity, account.lastUid), script.commit(0)), account, script.commit(0) == Works)
      else FetchFrom(c, account, uids, 0, account.lastUid, script)
  }

  /** One call to sync, with live the mailbox at its search. */
  function RunSync(c: Copy, account: AccountRow, selected: uint32, live: set<uint32>, script: Script): Outcome {
    if selected == 0 then Outcome(c, account, false)
    else if account.validity == selected then Download(c, account, live, script)
    else
      var c1 := Apply(c, Reset(c, selected), script.reset);
      if script.reset != Works then Outcome(c1, account, false)
      else Download(c1, AccountRow(selected, 0), live, script)
  }

  lemma BatchOf(start: nat, j: nat)
    requires start % BATCH == 0 && start <= j < start + BATCH
    ensures j / BATCH == start / BATCH
    ensures (j + 1) % BATCH == 0 <==> j + 1 == start + BATCH
  {
  }

  // ----- the same on the whole database -----

  datatype Ended = Ended(db: Database, account: AccountRow, ok: bool)

  function MessageOf(key: Key, fetch: Fetch): Email
    requires fetch.Fetched?
  {
    EmailWith(key, fetch.receivedAt, fetch.sentAt, fetch.attachments)
  }

  function FetchOn(db: Database, id: string, account: AccountRow, uid: uint32, fetch: Fetch): (Database, bool) {
    match fetch
    case Unavailable => (db, false)
    case Fetched(_, _, _, fault) =>
      var saved := SaveEmail(db, MessageOf(Key(id, MessageId(account.validity, uid)), fetch));
      (Committed(db, saved.0, fault), fault == Works && saved.1 != Refused)
  }

  function LoopOn(db: Database, id: string, account: AccountRow, uids: seq<uint32>, j: nat, lastUid: uint32, script: Script): Ended
    requires j <= |uids|
    decreases |uids| - j, 0
  {
    if j == |uids| then Ended(db, account, true)
    else
      var (db1, ok) := FetchOn(db, id, account, uids[j], script.fetch(j));
      var last := Max(lastUid, uids[j]);
      if !ok then Ended(db1, account, false)
      else if !ClosesBatch(j, |uids|) then LoopOn(db1, id, account, uids, j + 1, last, script)
      else CommitOn(db1, id, account, uids, j + 1, last, script, script.commit(j / BATCH))
  }

  function CommitOn(db: Database, id: string, account: AccountRow, uids: seq<uint32>, j: nat, lastUid: uint32,
                    script: Script, fault: Fault): Ended
    requires j <= |uids|
    decreases |uids| - j, 1
  {
    var db1 := Committed(db, UpdateCursor(db, id, account.validity, lastUid), fault);
    if fault != Works then Ended(db1, account, false)
    else LoopOn(db1, id, account.(lastUid := lastUid), uids, j, lastUid, script)
  }

  function DownloadOn(db: Database, id: string, account: AccountRow, live: set<uint32>, script: Script): Ended {
    if !script.search then Ended(db, account, false)
    else
      var uids := Listing(Matches(live, SearchStart(account.lastUid)));
      if uids == [] then
        Ended(Committed(db, UpdateCursor(db, id, account.validity, account.lastUid), script.commit(0)), account,
            script.commit(0) == Works)
      else LoopOn(db, id, account, uids, 0, account.lastUid, script)
  }

  function SyncOn(db: Database, id: string, account: AccountRow, selected: uint32, live: set<uint32>, script: Script): Ended {
    if selected == 0 then Ended(db, account, false)
    else if account.validity == selected then DownloadOn(db, id, account, live, script)
    else
      var db1 := Committed(db, ResetUidValidity(db, id, selected), script.reset);
      if script.reset != Works then Ended(db1, account, false)
      else DownloadOn(db1, id, AccountRow(selected, 0), live, script)
  }
}
