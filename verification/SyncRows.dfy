/** What a sync does to the rows: its view of one account, the rows it stores, and all the rows it keeps. */
module SyncRows {
  import opened Results
  import opened TimeText
  import opened Store
  import opened StoreEffects
  import opened Sync

  // ----- the account's view follows the specification -----

  /** The database stays consistent and holds for every other account what it held. */
  ghost predicate OnlyTouches(before: Database, after: Database, id: string) {
    Consistent(after) && forall other :: other != id ==> View(after, other) == View(before, other)
  }

  lemma FetchRefines(db: Database, id: string, account: AccountRow, uid: uint32, fetch: Fetch)
    requires Consistent(db)
    ensures var (after, ok) := FetchOn(db, id, account, uid, fetch);
      && OnlyTouches(db, after, id)
      && (fetch.Unavailable? ==> !ok && after == db)
      && (fetch.Fetched? ==>
           && ok == (fetch.fault == Works && id in db.accounts)
           && View(after, id) == Apply(View(db, id), SaveInto(View(db, id), MessageId(account.validity, uid)), fetch.fault))
  {
    if fetch.Fetched? {
      var e := MessageOf(Key(id, MessageId(account.validity, uid)), fetch);
      SaveEffect(db, e);
      SaveKeepsConsistent(db, e);
      forall a ensures View(SaveEmail(db, e).0, a) ==
          if a == id then SaveInto(View(db, a), MessageId(account.validity, uid)) else View(db, a) {
        SaveView(db, e, a);
      }
    }
  }

  lemma CommitRefines(db: Database, id: string, validity: uint32, lastUid: uint32, fault: Fault)
    requires Consistent(db)
    ensures var after := Committed(db, UpdateCursor(db, id, validity, lastUid), fault);
      && OnlyTouches(db, after, id)
      && View(after, id) == Apply(View(db, id), MoveCursor(View(db, id), validity, lastUid), fault)
  {
    StatementsKeepConsistent(db, id, validity, lastUid);
    forall a ensures View(UpdateCursor(db, id, validity, lastUid), a) ==
        if a == id then MoveCursor(View(db, id), validity, lastUid) else View(db, a) {
      CursorView(db, id, validity, lastUid, a);
    }
  }

  lemma ResetRefines(db: Database, id: string, selected: uint32, fault: Fault)
    requires Consistent(db)
    ensures var after := Committed(db, ResetUidValidity(db, id, selected), fault);
      && OnlyTouches(db, after, id)
      && View(after, id) == Apply(View(db, id), Reset(View(db, id), selected), fault)
  {
    StatementsKeepConsistent(db, id, selected, 0);
    forall a ensures View(ResetUidValidity(db, id, selected), a) ==
        if a == id then Reset(View(db, id), selected) else View(db, a) {
      ResetView(db, id, selected, a);
    }
  }

  /** The run on the database shows, for its account, the outcome on the account's view. */
  ghost predicate Refines(db: Database, id: string, r: Ended, o: Outcome) {
    OnlyTouches(db, r.db, id) && Outcome(View(r.db, id), r.account, r.ok) == o
  }

  lemma RefinesAfter(db: Database, db1: Database, id: string, r: Ended, o: Outcome)
    requires OnlyTouches(db, db1, id) && Refines(db1, id, r, o)
    ensures Refines(db, id, r, o)
  {
  }

  lemma {:induction false} LoopRefines(db: Database, id: string, account: AccountRow, uids: seq<uint32>, j: nat,
                                       lastUid: uint32, script: Script)
    requires Consistent(db) && j <= |uids|
    ensures Refines(db, id, LoopOn(db, id, account, uids, j, lastUid, script),
                    FetchFrom(View(db, id), account, uids, j, lastUid, script))
    decreases |uids| - j, 0
  {
    if j < |uids| {
      var (db1, ok) := FetchOn(db, id, account, uids[j], script.fetch(j));
      FetchRefines(db, id, account, uids[j], script.fetch(j));
      if ok {
        var last := Max(lastUid, uids[j]);
        if ClosesBatch(j, |uids|) {
          CloseRefines(db1, id, account, uids, j + 1, last, script, script.commit(j / BATCH));
          RefinesAfter(db, db1, id, CommitOn(db1, id, account, uids, j + 1, last, script, script.commit(j / BATCH)),
                       CloseBatch(View(db1, id), account, uids, j + 1, last, script, script.commit(j / BATCH)));
        } else {
          LoopRefines(db1, id, account, uids, j + 1, last, script);
          RefinesAfter(db, db1, id, LoopOn(db1, id, account, uids, j + 1, last, script),
                       FetchFrom(View(db1, id), account, uids, j + 1, last, script));
        }
      }
    }
  }

  lemma {:induction false} CloseRefines(db: Database, id: string, account: AccountRow, uids: seq<uint32>, j: nat,
                                        lastUid: uint32, script: Script, fault: Fault)
    requires Consistent(db) && j <= |uids|
    ensures Refines(db, id, CommitOn(db, id, account, uids, j, lastUid, script, fault),
                    CloseBatch(View(db, id), account, uids, j, lastUid, script, fault))
    decreases |uids| - j, 1
  {
    var db1 := Committed(db, UpdateCursor(db, id, account.validity, lastUid), fault);
    CommitRefines(db, id, account.validity, lastUid, fault);
    if fault == Works {
      var account1 := account.(lastUid := lastUid);
      LoopRefines(db1, id, account1, uids, j, lastUid, script);
      RefinesAfter(db, db1, id, LoopOn(db1, id, account1, uids, j, lastUid, script),
                   FetchFrom(View(db1, id), account1, uids, j, lastUid, script));
    }
  }

  lemma DownloadRefines(db: Database, id: string, account: AccountRow, live: set<uint32>, script: Script)
    requires Consistent(db)
    ensures Refines(db, id, DownloadOn(db, id, account, live, script), Download(View(db, id), account, live, script))
  {
    if script.search {
      var uids := Listing(Matches(live, SearchStart(account.lastUid)));
      if uids == [] {
        CommitRefines(db, id, account.validity, account.lastUid, script.commit(0));
      } else {
        LoopRefines(db, id, account, uids, 0, account.lastUid, script);
      }
    }
  }

  /** A sync of the database is, for its account, the specified sync, and touches no other account. */
  lemma SyncRefines(db: Database, id: string, account: AccountRow, selected: uint32, live: set<uint32>, script: Script)
    requires Consistent(db)
    ensures Refines(db, id, SyncOn(db, id, account, selected, live, script),
                    RunSync(View(db, id), account, selected, live, script))
  {
    if selected != 0 && account.validity == selected {
      DownloadRefines(db, id, account, live, script);
    } else if selected != 0 {
      var db1 := Committed(db, ResetUidValidity(db, id, selected), script.reset);
      ResetRefines(db, id, selected, script.reset);
      if script.reset == Works {
        DownloadRefines(db1, id, AccountRow(selected, 0), live, script);
        RefinesAfter(db, db1, id, DownloadOn(db1, id, AccountRow(selected, 0), live, script),
                     Download(View(db1, id), AccountRow(selected, 0), live, script));
      }
    }
  }

  // ----- the rows -----

  /** The row and the attachment rows of the message are those that were fetched. */
  ghost predicate HoldsFetched(db: Database, key: Key, fetch: Fetch) {
    fetch.Fetched? && Holds(db, key, EmailRow(key, FormatTime(fetch.receivedAt), NullTime(fetch.sentAt)), fetch.attachments)
  }

  ghost predicate AllKept(before: Database, after: Database) {
    forall e :: e in before.emails ==> Kept(before, after, e)
  }

  /** Email e is what one of the listed messages, fetched from index j on, has become. */
  ghost predicate IsFetched(db: Database, e: string, id: string, validity: uint32, uids: seq<uint32>, j: nat, script: Script) {
    exists k :: j <= k < |uids| && e == EmailId(Key(id, MessageId(validity, uids[k])))
      && HoldsFetched(db, Key(id, MessageId(validity, uids[k])), script.fetch(k))
  }

  /** All rows are kept, and every new one is a fetched message. */
  ghost predicate Adds(before: Database, after: Database, id: string, validity: uint32, uids: seq<uint32>, j: nat, script: Script) {
    && AllKept(before, after)
    && forall e :: e in after.emails && e !in before.emails ==> IsFetched(after, e, id, validity, uids, j, script)
  }

  lemma SameIsKept(db: Database, after: Database)
    requires after.emails == db.emails && after.attachments == db.attachments
    ensures AllKept(db, after)
  {
  }

  /** Fetching one message adds its row with its times and all its attachment rows, or nothing. */
  lemma FetchAdds(db: Database, id: string, account: AccountRow, uid: uint32, fetch: Fetch)
    requires Consistent(db)
    ensures var after, key := FetchOn(db, id, account, uid, fetch).0, Key(id, MessageId(account.validity, uid));
      && AllKept(db, after)
      && (forall e :: e in after.emails && e !in db.emails ==> e == EmailId(key) && HoldsFetched(after, key, fetch))
      && (fetch.Fetched? && fetch.fault != FailsBefore && id in db.accounts && EmailId(key) !in db.emails ==>
           HoldsFetched(after, key, fetch))
  {
    var after := FetchOn(db, id, account, uid, fetch).0;
    if fetch.Unavailable? || fetch.fault == FailsBefore {
      SameIsKept(db, after);
    } else {
      var key := Key(id, MessageId(account.validity, uid));
      var e := MessageOf(key, fetch);
      SaveEmails(db, e);
      SaveEffect(db, e);
      forall x | x in db.emails ensures Kept(db, after, x) { SaveKeepsRows(db, e, x); }
      if SaveEmail(db, e).1 == Inserted { InsertedHolds(db, key, fetch.receivedAt, fetch.sentAt, fetch.attachments); }
    }
  }

  lemma KeptThrough(a: Database, b: Database, c: Database)
    requires AllKept(a, b) && AllKept(b, c)
    ensures AllKept(a, c)
  {
    forall e | e in a.emails ensures Kept(a, c, e) { KeptTwice(a, b, c, e); }
  }

  /** A fetched message stays what it is while rows are kept. */
  lemma FetchedStays(b: Database, c: Database, key: Key, fetch: Fetch)
    requires HoldsFetched(b, key, fetch) && AllKept(b, c)
    ensures HoldsFetched(c, key, fetch)
  {
    assert Kept(b, c, EmailId(key));
    HeldIsKept(b, c, key, EmailRow(key, FormatTime(fetch.receivedAt), NullTime(fetch.sentAt)), fetch.attachments);
  }

  lemma IsFetchedLater(db: Database, e: string, id: string, validity: uint32, uids: seq<uint32>, j: nat, script: Script)
    requires IsFetched(db, e, id, validity, uids, j + 1, script)
    ensures IsFetched(db, e, id, validity, uids, j, script)
  {
  }

  /** One message, and then the rest of the loop. */
  lemma AddsThen(a: Database, b: Database, c: Database, id: string, validity: uint32, uids: seq<uint32>, j: nat, script: Script)
    requires j < |uids| && AllKept(a, b) && Adds(b, c, id, validity, uids, j + 1, script)
    requires var key := Key(id, MessageId(validity, uids[j]));
      forall e :: e in b.emails && e !in a.emails ==> e == EmailId(key) && HoldsFetched(b, key, script.fetch(j))
    ensures Adds(a, c, id, validity, uids, j, script)
  {
    KeptThrough(a, b, c);
    forall e | e in c.emails && e !in a.emails ensures IsFetched(c, e, id, validity, uids, j, script) {
      if e in b.emails {
        FetchedStays(b, c, Key(id, MessageId(validity, uids[j])), script.fetch(j));
      } else {
        IsFetchedLater(c, e, id, validity, uids, j, script);
      }
    }
  }

  lemma NothingAdded(a: Database, b: Database, id: string, validity: uint32, uids: seq<uint32>, j: nat, script: Script)
    requires b.emails == a.emails && b.attachments == a.attachments
    ensures Adds(a, b, id, validity, uids, j, script)
  {
    SameIsKept(a, b);
  }

  lemma OneAdded(a: Database, b: Database, id: string, validity: uint32, uids: seq<uint32>, j: nat, script: Script)
    requires j < |uids| && AllKept(a, b)
    requires var key := Key(id, MessageId(validity, uids[j]));
      forall e :: e in b.emails && e !in a.emails ==> e == EmailId(key) && HoldsFetched(b, key, script.fetch(j))
    ensures Adds(a, b, id, validity, uids, j, script)
  {
    NothingAdded(b, b, id, validity, uids, j + 1, script);
    AddsThen(a, b, b, id, validity, uids, j, script);
  }

  lemma SameRowsThen(a: Database, b: Database, c: Database, id: string, validity: uint32, uids: seq<uint32>, j: nat, script: Script)
    requires b.emails == a.emails && b.attachments == a.attachments && Adds(b, c, id, validity, uids, j, script)
    ensures Adds(a, c, id, validity, uids, j, script)
  {
    SameIsKept(a, b);
    KeptThrough(a, b, c);
  }

  lemma {:induction false} LoopAdds(db: Database, id: string, account: AccountRow, uids: seq<uint32>, j: nat,
                                    lastUid: uint32, script: Script)
    requires Consistent(db) && j <= |uids|
    ensures Adds(db, LoopOn(db, id, account, uids, j, lastUid, script).db, id, account.validity, uids, j, script)
    decreases |uids| - j, 0
  {
    if j == |uids| {
      NothingAdded(db, db, id, account.validity, uids, j, script);
    } else {
      var (db1, ok) := FetchOn(db, id, account, uids[j], script.fetch(j));
      FetchRefines(db, id, account, uids[j], script.fetch(j));
      FetchAdds(db, id, account, uids[j], script.fetch(j));
      if !ok {
        OneAdded(db, db1, id, account.validity, uids, j, script);
      } else {
        var last := Max(lastUid, uids[j]);
        if ClosesBatch(j, |uids|) {
          CloseAdds(db1, id, account, uids, j + 1, last, script, script.commit(j / BATCH));
        } else {
          LoopAdds(db1, id, account, uids, j + 1, last, script);
        }
        AddsThen(db, db1, LoopOn(db, id, account, uids, j, lastUid, script).db, id, account.validity, uids, j, script);
      }
    }
  }

  lemma {:induction false} CloseAdds(db: Database, id: string, account: AccountRow, uids: seq<uint32>, j: nat,
                                     lastUid: uint32, script: Script, fault: Fault)
    requires Consistent(db) && j <= |uids|
    ensures Adds(db, CommitOn(db, id, account, uids, j, lastUid, script, fault).db, id, account.validity, uids, j, script)
    decreases |uids| - j, 1
  {
    var db1 := Committed(db, UpdateCursor(db, id, account.validity, lastUid), fault);
    CursorExactly(db, id, account.validity, lastUid);
    CommitRefines(db, id, account.validity, lastUid, fault);
    if fault != Works {
      NothingAdded(db, db1, id, account.validity, uids, j, script);
    } else {
      var account1 := account.(lastUid := lastUid);
      LoopAdds(db1, id, account1, uids, j, lastUid, script);
      SameRowsThen(db, db1, LoopOn(db1, id, account1, uids, j, lastUid, script).db, id, account.validity, uids, j, script);
    }
  }

  lemma DownloadAdds(db: Database, id: string, account: AccountRow, live: set<uint32>, script: Script)
    requires Consistent(db)
    ensures Adds(db, DownloadOn(db, id, account, live, script).db, id, account.validity,
                 Listing(Matches(live, SearchStart(account.lastUid))), 0, script)
  {
    var uids := Listing(Matches(live, SearchStart(account.lastUid)));
    if script.search && uids != [] {
      LoopAdds(db, id, account, uids, 0, account.lastUid, script);
    } else {
      CursorExactly(db, id, account.validity, account.lastUid);
      NothingAdded(db, DownloadOn(db, id, account, live, script).db, id, account.validity, uids, 0, script);
    }
  }

  /** The account as the worker has it once UIDVALIDITY is settled. */
  function Settled(account: AccountRow, selected: uint32): AccountRow {
    if account.validity == selected then account else AccountRow(selected, 0)
  }

  /**
    After a sync: other accounts have all their rows as before, so has this one unless UIDVALIDITY changed,
    and every row that was not there before is a message of the search result, with the received and sent
    time and the attachments that were fetched.
   */
  ghost predicate Stores(before: Database, after: Database, id: string, account: AccountRow, selected: uint32,
                         live: set<uint32>, script: Script) {
    var settled := Settled(account, selected);
    var uids := Listing(Matches(live, SearchStart(settled.lastUid)));
    && (forall e :: e in before.emails && before.emails[e].key.account != id ==> Kept(before, after, e))
    && (account.validity == selected ==> AllKept(before, after))
    && forall e :: e in after.emails ==>
         (e in before.emails && Kept(before, after, e)) || IsFetched(after, e, id, settled.validity, uids, 0, script)
  }

  lemma ResetKeeps(db: Database, id: string, selected: uint32, e: string)
    requires Consistent(db) && e in db.emails && db.emails[e].key.account != id
    ensures Kept(db, ResetUidValidity(db, id, selected), e)
  {
    CascadeKeepsOthers(db, id, e);
    CursorExactly(WithoutEmailsOf(db, id), id, selected, 0);
  }

  lemma ResetLeavesOthers(db: Database, id: string, selected: uint32, e: string)
    requires Consistent(db) && e in ResetUidValidity(db, id, selected).emails
    ensures e in db.emails && db.emails[e].key.account != id && Kept(db, ResetUidValidity(db, id, selected), e)
  {
    CascadeExactly(db, id);
    CursorExactly(WithoutEmailsOf(db, id), id, selected, 0);
    ResetKeeps(db, id, selected, e);
  }

  lemma SelfKept(db: Database)
    ensures AllKept(db, db)
  {
  }

  lemma ResetThenAdds(db: Database, id: string, account: AccountRow, selected: uint32, live: set<uint32>, script: Script, after: Database)
    requires Consistent(db) && account.validity != selected
    requires Adds(ResetUidValidity(db, id, selected), after, id, selected, Listing(Matches(live, SearchStart(0))), 0, script)
    ensures Stores(db, after, id, account, selected, live, script)
  {
    var db1 := ResetUidValidity(db, id, selected);
    forall e | e in db.emails && db.emails[e].key.account != id ensures Kept(db, after, e) {
      ResetKeeps(db, id, selected, e);
      assert Kept(db1, after, e);
      KeptTwice(db, db1, after, e);
    }
    forall e | e in after.emails && e in db1.emails ensures e in db.emails && Kept(db, after, e) {
      ResetLeavesOthers(db, id, selected, e);
      assert Kept(db1, after, e);
      KeptTwice(db, db1, after, e);
    }
  }

  lemma SyncStores(db: Database, id: string, account: AccountRow, selected: uint32, live: set<uint32>, script: Script)
    requires Consistent(db)
    ensures Stores(db, SyncOn(db, id, account, selected, live, script).db, id, account, selected, live, script)
  {
    SelfKept(db);
    var r := SyncOn(db, id, account, selected, live, script);
    if selected != 0 && account.validity == selected {
      DownloadAdds(db, id, account, live, script);
      forall e | e in r.db.emails && e in db.emails ensures Kept(db, r.db, e) {}
    } else if selected != 0 && script.reset != FailsBefore {
      var db1 := ResetUidValidity(db, id, selected);
      ResetRefines(db, id, selected, Works);
      if script.reset == Works {
        DownloadAdds(db1, id, AccountRow(selected, 0), live, script);
      } else {
        NothingAdded(db1, db1, id, selected, Listing(Matches(live, SearchStart(0))), 0, script);
      }
      ResetThenAdds(db, id, account, selected, live, script, r.db);
    }
  }
}
