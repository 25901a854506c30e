/** The account service: creating an account and deleting it with everything it owns. */
module Accounts {
  import opened Results
  import opened Store
  import L = Lifecycle

  function FilesOf(files: set<Path>, id: string): set<Path> {
    set p | p in files && p.account == id
  }

  class Service {
    const store: Store
    const monitor: L.Manager
    var files: set<Path>

    constructor (store: Store, monitor: L.Manager, files: set<Path>)
      ensures this.store == store && this.monitor == monitor && this.files == files
    {
      this.store, this.monitor, this.files := store, monitor, files;
    }

    /**
      The row is inserted only for valid input, a working connection, a drawn identifier and an encrypted
      password; the worker starts only if the insertion reports success.
     */
    method Create(prepared: bool, connects: bool, id: Option<string>, encrypts: bool, fault: Fault) returns (ok: bool)
      requires L.TableOk(monitor.Snapshot())
      modifies store, monitor
      ensures ok <==> prepared && connects && id.Some? && encrypts && fault == Works && id.value !in old(store.Db()).accounts
      ensures store.Db() ==
        if prepared && connects && id.Some? && encrypts && InsertAccount(old(store.Db()), id.value).Some?
        then Committed(old(store.Db()), InsertAccount(old(store.Db()), id.value).value, fault) else old(store.Db())
      ensures ok ==> monitor.Snapshot() == L.Started(old(monitor.Snapshot()), id.value) && id.value in monitor.workers
      ensures ok && id.value !in old(monitor.workers) ==>
        monitor.goroutines == old(monitor.goroutines) + [L.Goroutine(id.value, L.Inside, false)]
      ensures !ok ==> monitor.Snapshot() == old(monitor.Snapshot())
      ensures L.TableOk(monitor.Snapshot())
    {
      if !prepared || !connects || id.None? { return false; }
      ok := store.CreateAccount(id.value, encrypts, fault);
      if ok { monitor.StartAccount(id.value); }
    }

    /**
      Stops the worker, then deletes the row, then removes the files; kept are those that resist removal.
      A missing row or an error of the database ends it after the worker has been stopped.
     */
    method Delete(id: string, fault: Fault, kept: set<Path>) returns (ok: bool)
      requires Consistent(store.Db()) && L.TableOk(monitor.Snapshot())
      modifies this, store, monitor
      ensures L.TableOk(monitor.Snapshot()) && L.WorkerGone(old(monitor.Snapshot()), monitor.Snapshot(), id)
      ensures ok <==>
        && fault == Works && id in old(store.Db()).accounts
        && forall p :: p in old(files) && p.account == id ==> p !in kept
      ensures store.Db() == if id in old(store.Db()).accounts
                            then Committed(old(store.Db()), DeleteAccount(old(store.Db()), id).value, fault) else old(store.Db())
      ensures fault != Works || id !in old(store.Db()).accounts ==> files == old(files)
      ensures fault == Works && id in old(store.Db()).accounts ==>
        forall p :: p in files <==> p in old(files) && (p.account != id || p in kept)
      ensures ok ==> View(store.Db(), id) == Gone && forall p :: p in files ==> p.account != id
      ensures ok ==> forall e :: e in store.Db().emails ==> store.Db().emails[e].key.account != id
      ensures forall other :: other != id ==> View(store.Db(), other) == View(old(store.Db()), other)
    {
      monitor.StopAccount(id);
      ghost var before := store.Db();
      var removal := store.DeleteAccountRow(id, fault);
      if id in before.accounts {
        forall other { DeleteView(before, id, other); }
      }
      if removal != Removed { return false; }
      var left := FilesOf(files, id) * kept;
      assert forall p :: p in left <==> p in files && p.account == id && p in kept;
      files := files - FilesOf(files, id) + left;
      return left == {};
    }
  }

  /** Deleting a new account restores the database exactly. */
  lemma DeleteUndoesCreate(db: Database, id: string)
    requires Consistent(db) && id !in db.accounts
    ensures InsertAccount(db, id).Some?
    ensures DeleteAccount(InsertAccount(db, id).value, id) == Some(db)
  {
    var created := InsertAccount(db, id).value;
    var deleted := DeleteAccount(created, id).value;
    assert deleted.accounts == db.accounts;
    assert deleted.emails == db.emails;
    assert deleted.attachments == db.attachments;
  }
}
