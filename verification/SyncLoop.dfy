/** The sync loop of the monitor, run on the store. */
module SyncLoop {
  import opened Results
  import opened TimeText
  import opened Store
  import opened StoreEffects
  import opened Sync
  import opened SyncRows

  /** The run from message j of the batch that starts at start and ends at end. */
  function BatchRest(db: Database, id: string, account: AccountRow, uids: seq<uint32>, start: nat, end: nat, j: nat,
                     lastUid: uint32, script: Script): Ended
    requires j <= end <= |uids|
  {
    if j < end then LoopOn(db, id, account, uids, j, lastUid, script)
    else CommitOn(db, id, account, uids, end, lastUid, script, script.commit(start / BATCH))
  }

  lemma ClosesAtEnd(start: nat, end: nat, j: nat, n: nat)
    requires start <= j < end <= n && start % BATCH == 0
    requires end == (if start + BATCH > n then n else start + BATCH)
    ensures ClosesBatch(j, n) <==> j + 1 == end
    ensures j / BATCH == start / BATCH
  {
    BatchOf(start, j);
  }

  lemma LoopStep(db: Database, id: string, account: AccountRow, uids: seq<uint32>, j: nat, lastUid: uint32, script: Script)
    requires j < |uids|
    ensures var (db1, ok) := FetchOn(db, id, account, uids[j], script.fetch(j));
      LoopOn(db, id, account, uids, j, lastUid, script) ==
        if !ok then Ended(db1, account, false)
        else if ClosesBatch(j, |uids|)
        then CommitOn(db1, id, account, uids, j + 1, Max(lastUid, uids[j]), script, script.commit(j / BATCH))
        else LoopOn(db1, id, account, uids, j + 1, Max(lastUid, uids[j]), script)
  {
  }

  /** What follows a saved message, by its place in the batch. */
  lemma RestAfter(db: Database, id: string, account: AccountRow, uids: seq<uint32>, start: nat, end: nat, j: nat,
                  last: uint32, script: Script)
    requires start <= j < end <= |uids| && start % BATCH == 0
    requires end == (if start + BATCH > |uids| then |uids| else start + BATCH)
    ensures BatchRest(db, id, account, uids, start, end, j + 1, last, script) ==
      if ClosesBatch(j, |uids|) then CommitOn(db, id, account, uids, j + 1, last, script, script.commit(j / BATCH))
      else LoopOn(db, id, account, uids, j + 1, last, script)
  {
    ClosesAtEnd(start, end, j, |uids|);
  }

  /** One message of the batch from start. */
  lemma BatchStep(db: Database, id: string, account: AccountRow, uids: seq<uint32>, start: nat, end: nat, j: nat,
                  lastUid: uint32, script: Script)
    requires start <= j < end <= |uids| && start % BATCH == 0
    requires end == (if start + BATCH > |uids| then |uids| else start + BATCH)
    ensures var (db1, ok) := FetchOn(db, id, account, uids[j], script.fetch(j));
      BatchRest(db, id, account, uids, start, end, j, lastUid, script) ==
        if !ok then Ended(db1, account, false)
        else BatchRest(db1, id, account, uids, start, end, j + 1, Max(lastUid, uids[j]), script)
  {
    var (db1, ok) := FetchOn(db, id, account, uids[j], script.fetch(j));
    LoopStep(db, id, account, uids, j, lastUid, script);
    if ok { RestAfter(db1, id, account, uids, start, end, j, Max(lastUid, uids[j]), script); }
  }

  class Manager {
    const store: Store

    constructor (store: Store)
      ensures this.store == store
    {
      this.store := store;
    }

    /** One message: its row with both times and all its attachment rows, unless it is stored, or an error. */
    method FetchOne(id: string, account: AccountRow, uid: uint32, fetch: Fetch) returns (ok: bool)
      modifies store
      ensures (store.Db(), ok) == FetchOn(old(store.Db()), id, account, uid, fetch)
      ensures Consistent(old(store.Db())) ==>
        var before, after, key := old(store.Db()), store.Db(), Key(id, MessageId(account.validity, uid));
        && OnlyTouches(before, after, id) && AllKept(before, after)
        && (fetch.Unavailable? ==> !ok && after == before)
        && (fetch.Fetched? ==>
             && ok == (fetch.fault == Works && id in before.accounts)
             && View(after, id) == Apply(View(before, id), SaveInto(View(before, id), key.message), fetch.fault))
        && (ok && EmailId(key) !in before.emails ==>
             Holds(after, key, EmailRow(key, FormatTime(fetch.receivedAt), NullTime(fetch.sentAt)), fetch.attachments))
    {
      ghost var before := store.Db();
      if Consistent(before) {
        FetchRefines(before, id, account, uid, fetch);
        FetchAdds(before, id, account, uid, fetch);
      }
      if fetch.Unavailable? { return false; }
      var key := Key(id, MessageId(account.validity, uid));
      var email := Email(EmailId(key), key, fetch.receivedAt, fetch.sentAt, AttachmentsFrom(key, 1, fetch.attachments));
      var _, saved := store.Save(email, fetch.fault);
      return saved;
    }

    method Complete(id: string, account: AccountRow, lastUid: uint32, fault: Fault) returns (ok: bool)
      modifies store
      ensures ok == (fault == Works)
      ensures store.Db() == Committed(old(store.Db()), UpdateCursor(old(store.Db()), id, account.validity, lastUid), fault)
      ensures var before := View(old(store.Db()), id);
        View(store.Db(), id) == Apply(before, MoveCursor(before, account.validity, lastUid), fault)
    {
      CursorView(store.Db(), id, account.validity, lastUid, id);
      ok := store.CompleteSync(id, account.validity, lastUid, fault);
    }

    /** The messages of one batch. */
    method FetchBatch(id: string, account: AccountRow, uids: seq<uint32>, start: nat, end: nat, lastUid0: uint32, script: Script)
      returns (lastUid: uint32, ok: bool)
      requires start < end <= |uids| && start % BATCH == 0
      requires end == (if start + BATCH > |uids| then |uids| else start + BATCH)
      modifies store
      ensures LoopOn(old(store.Db()), id, account, uids, start, lastUid0, script) ==
        if ok then CommitOn(store.Db(), id, account, uids, end, lastUid, script, script.commit(start / BATCH))
        else Ended(store.Db(), account, false)
    {
      lastUid := lastUid0;
      ghost var all := BatchRest(store.Db(), id, account, uids, start, end, start, lastUid, script);
      var j := start;
      while j < end
        invariant start <= j <= end
        invariant BatchRest(store.Db(), id, account, uids, start, end, j, lastUid, script) == all
      {
        BatchStep(store.Db(), id, account, uids, start, end, j, lastUid, script);
        var fetched := FetchOne(id, account, uids[j], script.fetch(j));
        if !fetched { return lastUid, false; }
        lastUid := Max(lastUid, uids[j]);
        j := j + 1;
      }
      return lastUid, true;
    }

    method Batches(id: string, account0: AccountRow, uids: seq<uint32>, script: Script)
      returns (account: AccountRow, ok: bool)
      modifies store
      ensures Ended(store.Db(), account, ok) == LoopOn(old(store.Db()), id, account0, uids, 0, account0.lastUid, script)
    {
      account := account0;
      var lastUid := account.lastUid;
      var start := 0;
      ghost var all := LoopOn(store.Db(), id, account0, uids, 0, lastUid, script);
      while start < |uids|
        invariant 0 <= start <= |uids| && (start % BATCH == 0 || start == |uids|)
        invariant LoopOn(store.Db(), id, account, uids, start, lastUid, script) == all
      {
        var end := if start + BATCH > |uids| then |uids| else start + BATCH;
        var fetched;
        lastUid, fetched := FetchBatch(id, account, uids, start, end, lastUid, script);
        if !fetched { return account, false; }
        var completed := Complete(id, account, lastUid, script.commit(start / BATCH));
        if !completed { return account, false; }
        account := account.(lastUid := lastUid);
        start := end;
      }
      return account, true;
    }

    /** sync: its account ends as the specification says, other accounts keep every row, and new rows are what was fetched. */
    method Sync(id: string, account0: AccountRow, selected: uint32, live: set<uint32>, script: Script)
      returns (account: AccountRow, ok: bool)
      modifies store
      ensures Ended(store.Db(), account, ok) == SyncOn(old(store.Db()), id, account0, selected, live, script)
      ensures Consistent(old(store.Db())) ==>
        && OnlyTouches(old(store.Db()), store.Db(), id)
        && Outcome(View(store.Db(), id), account, ok)
           == RunSync(View(old(store.Db()), id), account0, selected, live, script)
        && Stores(old(store.Db()), store.Db(), id, account0, selected, live, script)
    {
      if Consistent(store.Db()) {
        SyncRefines(store.Db(), id, account0, selected, live, script);
        SyncStores(store.Db(), id, account0, selected, live, script);
      }
      account := account0;
      if selected == 0 { return account, false; }
      if account.validity != selected {
        var reset := store.ResetUIDValidity(id, selected, script.reset);
        if !reset { return account, false; }
        account := AccountRow(selected, 0);
      }
      if !script.search { return account, false; }
      var uids := Listing(Matches(live, SearchStart(account.lastUid)));
      if |uids| == 0 {
        ok := Complete(id, account, account.lastUid, script.commit(0));
      } else {
        account, ok := Batches(id, account, uids, script);
      }
    }
  }
}
