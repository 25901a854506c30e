/** The SQLite tables that mail ingestion writes, their keys and cascades, and the statements that change them. */
module Store {
  import opened Results
  import opened Text
  import opened TimeText

  type uint32 = x: int | 0 <= x < 0x1_0000_0000

  /** A message within one account: unique and never reused, by section 2.3.1.1 of RFC 3501. */
  datatype MessageId = MessageId(validity: uint32, uid: uint32)

  datatype Key = Key(account: string, message: MessageId)

  /** filepath.Join(attachmentRoot, account, email, name); identifiers contain no separator. */
  datatype Path = Path(account: string, email: string, name: string)

  datatype Attachment = Attachment(id: string, path: Path)

  datatype Email = Email(
    id: string, key: Key, receivedAt: Instant, sentAt: Option<Instant>, attachments: seq<Attachment>)

  /** The zero time of the program: 0001-01-01T00:00:00Z. */
  const ZERO_TIME: Instant := Instant(86400 * 366, 0)

  /** A missing time and the zero time are stored as NULL. */
  function NullTime(t: Option<Instant>): Option<string> {
    if t.None? || t.value == ZERO_TIME then None else Some(FormatTime(t.value))
  }

  datatype AccountRow = AccountRow(validity: uint32, lastUid: uint32)
  datatype EmailRow = EmailRow(key: Key, receivedAt: string, sentAt: Option<string>)
  datatype AttachmentRow = AttachmentRow(email: string, path: Path)

  datatype Database = Database(
    accounts: map<string, AccountRow>,
    emails: map<string, EmailRow>,
    attachments: map<string, AttachmentRow>)

  // ----- identifiers -----

  /** The text "%s:%d:%d" that is hashed; the hash is taken as collision free, so the text stands for it. */
  function EmailId(k: Key): string {
    "em_" + (k.account + ":" + Decimal(k.message.validity) + ":" + Decimal(k.message.uid))
  }

  function AttachmentId(email: string, index: nat): string {
    email + "-" + ("a" + Padded(index, 3))
  }

  function AttachmentOf(k: Key, index: nat): Attachment {
    var id := AttachmentId(EmailId(k), index);
    Attachment(id, Path(k.account, EmailId(k), id))
  }

  /** Attachments first, first+1, ... of a message, as the parser numbers them. */
  function AttachmentsFrom(k: Key, first: nat, count: nat): (s: seq<Attachment>)
    ensures |s| == count && forall i :: 0 <= i < count ==> s[i] == AttachmentOf(k, first + i)
  {
    seq(count, i requires 0 <= i < count => AttachmentOf(k, first + i))
  }

  lemma DecimalInjective(n: nat, m: nat)
    ensures Decimal(n) == Decimal(m) <==> n == m
  {
    DecimalValue(n);
    DecimalValue(m);
  }

  /** The identifier text is injective for every account string, also one that contains colons. */
  lemma EmailIdInjective(k: Key, l: Key)
    requires EmailId(k) == EmailId(l)
    ensures k == l
  {
    var a, b := k.account + ":" + Decimal(k.message.validity), l.account + ":" + Decimal(l.message.validity);
    assert EmailId(k)[3..] == a + [':'] + Decimal(k.message.uid);
    assert EmailId(l)[3..] == b + [':'] + Decimal(l.message.uid);
    SplitAtLast(a, b, ':', Decimal(k.message.uid), Decimal(l.message.uid));
    SplitAtLast(k.account, l.account, ':', Decimal(k.message.validity), Decimal(l.message.validity));
    DecimalInjective(k.message.uid, l.message.uid);
    DecimalInjective(k.message.validity, l.message.validity);
  }

  lemma AttachmentIdInjective(e: string, i: nat, f: string, j: nat)
    requires AttachmentId(e, i) == AttachmentId(f, j)
    ensures e == f && i == j
  {
    var x, y := "a" + Padded(i, 3), "a" + Padded(j, 3);
    SplitAtLast(e, f, '-', x, y);
    assert x[1..] == Padded(i, 3) && y[1..] == Padded(j, 3);
    PaddedValue(i, 3);
    PaddedValue(j, 3);
  }

  /** No two attachments of any messages share a path. */
  lemma PathInjective(k: Key, i: nat, l: Key, j: nat)
    requires AttachmentOf(k, i).path == AttachmentOf(l, j).path
    ensures k == l && i == j
  {
    AttachmentIdInjective(EmailId(k), i, EmailId(l), j);
    EmailIdInjective(k, l);
  }

  // ----- statements -----

  function RowOf(e: Email): EmailRow {
    EmailRow(e.key, FormatTime(e.receivedAt), NullTime(e.sentAt))
  }

  function InsertAccount(db: Database, id: string): Option<Database> {
    if id in db.accounts then None
    else Some(db.(accounts := db.accounts[id := AccountRow(0, 0)]))
  }

  function WithoutEmailsOf(db: Database, account: string): Database {
    var emails := map e | e in db.emails && db.emails[e].key.account != account :: db.emails[e];
    db.(emails := emails,
        attachments := map x | x in db.attachments && db.attachments[x].email in emails :: db.attachments[x])
  }

  /** DELETE FROM accounts, with the cascade to emails and attachments. */
  function DeleteAccount(db: Database, id: string): Option<Database> {
    if id !in db.accounts then None
    else Some(WithoutEmailsOf(db, id).(accounts := map a | a in db.accounts && a != id :: db.accounts[a]))
  }

  /** UPDATE accounts ... WHERE id=?; no row, no change. */
  function UpdateCursor(db: Database, id: string, validity: uint32, lastUid: uint32): Database {
    if id !in db.accounts then db
    else db.(accounts := db.accounts[id := AccountRow(validity, lastUid)])
  }

  function ResetUidValidity(db: Database, id: string, validity: uint32): Database {
    UpdateCursor(WithoutEmailsOf(db, id), id, validity, 0)
  }

  /** INSERT INTO attachments, one row at a time; a repeated id fails. */
  function InsertAttachments(rows: map<string, AttachmentRow>, email: string, added: seq<Attachment>)
    : Option<map<string, AttachmentRow>>
    decreases |added|
  {
    if added == [] then Some(rows)
    else if added[0].id in rows then None
    else InsertAttachments(rows[added[0].id := AttachmentRow(email, added[0].path)], email, added[1..])
  }

  /** The row would break PRIMARY KEY(id) or UNIQUE(account_id, uid_validity, imap_uid). */
  predicate Conflicts(db: Database, e: Email) {
    e.id in db.emails || exists x :: x in db.emails && db.emails[x].key == e.key
  }

  /** The email that ingestion makes of a message. */
  function EmailWith(key: Key, receivedAt: Instant, sentAt: Option<Instant>, count: nat): Email {
    Email(EmailId(key), key, receivedAt, sentAt, AttachmentsFrom(key, 1, count))
  }

  datatype Saved = Inserted | Ignored | Refused

  /** The transaction of SaveEmail: ignored on a conflict, refused by a foreign key or an attachment key. */
  function SaveEmail(db: Database, e: Email): (Database, Saved) {
    if Conflicts(db, e) then (db, Ignored)
    else if e.key.account !in db.accounts then (db, Refused)
    else match InsertAttachments(db.attachments, e.id, e.attachments)
      case None => (db, Refused)
      case Some(rows) =>
        (db.(emails := db.emails[e.id := RowOf(e)], attachments := rows), Inserted)
  }

  // ----- what every reachable database keeps -----

  /** Foreign keys hold, and every row carries the identifier computed for it. */
  ghost predicate Consistent(db: Database) {
    && (forall e :: e in db.emails ==> db.emails[e].key.account in db.accounts && e == EmailId(db.emails[e].key))
    && (forall x :: x in db.attachments ==>
         var row := db.attachments[x];
         row.email in db.emails && exists i: nat :: AttachmentOf(db.emails[row.email].key, i) == Attachment(x, row.path))
  }

  /** What ingestion hands to SaveEmail: the computed identifier and consecutively numbered attachments. */
  ghost predicate WellFormed(e: Email) {
    e.id == EmailId(e.key) && e.attachments == AttachmentsFrom(e.key, 1, |e.attachments|)
  }

  lemma {:induction false} AttachmentsAllNew(rows: map<string, AttachmentRow>, email: string, added: seq<Attachment>)
    requires forall i :: 0 <= i < |added| ==> added[i].id !in rows
    requires forall i, j :: 0 <= i < j < |added| ==> added[i].id != added[j].id
    ensures var r := InsertAttachments(rows, email, added);
      && r.Some?
      && (forall x :: x in rows ==> x in r.value && r.value[x] == rows[x])
      && (forall i :: 0 <= i < |added| ==> added[i].id in r.value && r.value[added[i].id] == AttachmentRow(email, added[i].path))
      && (forall x :: x in r.value ==> x in rows || exists i :: 0 <= i < |added| && x == added[i].id)
    decreases |added|
  {
    if added != [] {
      var rows' := rows[added[0].id := AttachmentRow(email, added[0].path)];
      AttachmentsAllNew(rows', email, added[1..]);
      var r := InsertAttachments(rows', email, added[1..]).value;
      forall i | 0 <= i < |added| ensures added[i].id in r && r[added[i].id] == AttachmentRow(email, added[i].path) {
        if i > 0 { assert added[1..][i - 1] == added[i]; }
      }
      forall x | x in r ensures x in rows || exists i :: 0 <= i < |added| && x == added[i].id {
        if x !in rows && x != added[0].id {
          var i :| 0 <= i < |added[1..]| && x == added[1..][i].id;
          assert x == added[i + 1].id;
        }
      }
    }
  }

  lemma ConflictIsStoredId(db: Database, e: Email)
    requires Consistent(db) && WellFormed(e)
    ensures Conflicts(db, e) <==> e.id in db.emails
    ensures e.id in db.emails ==> db.emails[e.id].key == e.key
  {
    if e.id in db.emails { EmailIdInjective(db.emails[e.id].key, e.key); }
  }

  lemma AttachmentIdAt(e: Email, i: nat)
    requires WellFormed(e) && i < |e.attachments|
    ensures e.attachments[i].id == AttachmentId(e.id, i + 1)
    ensures e.attachments[i] == AttachmentOf(e.key, i + 1)
  {
  }

  lemma DifferentIndexDifferentId(email: string, i: nat, j: nat)
    requires i != j
    ensures AttachmentId(email, i) != AttachmentId(email, j)
  {
    if AttachmentId(email, i) == AttachmentId(email, j) { AttachmentIdInjective(email, i, email, j); }
  }

  lemma AttachmentIsNew(db: Database, e: Email, i: nat)
    requires Consistent(db) && WellFormed(e) && e.id !in db.emails && i < |e.attachments|
    ensures e.attachments[i].id !in db.attachments
  {
    var x := e.attachments[i].id;
    AttachmentIdAt(e, i);
    if x in db.attachments {
      var row := db.attachments[x];
      var j: nat :| AttachmentOf(db.emails[row.email].key, j) == Attachment(x, row.path);
      AttachmentIdInjective(row.email, j, e.id, i + 1);
    }
  }

  lemma AttachmentsDiffer(e: Email, i: nat, j: nat)
    requires WellFormed(e) && i < j < |e.attachments|
    ensures e.attachments[i].id != e.attachments[j].id
  {
    AttachmentIdAt(e, i);
    AttachmentIdAt(e, j);
    DifferentIndexDifferentId(e.id, i + 1, j + 1);
  }

  lemma SaveEffect(db: Database, e: Email)
    requires Consistent(db) && WellFormed(e)
    ensures SaveEmail(db, e).1 == Ignored <==> e.id in db.emails
    ensures e.id in db.emails ==> db.emails[e.id].key == e.key
    ensures SaveEmail(db, e).1 == Refused <==> e.key.account !in db.accounts
    ensures SaveEmail(db, e).1 != Inserted ==> SaveEmail(db, e).0 == db
    ensures SaveEmail(db, e).1 == Inserted ==>
      var after := SaveEmail(db, e).0;
      && after.accounts == db.accounts && after.emails == db.emails[e.id := RowOf(e)]
      && (forall x :: x in db.attachments ==> x in after.attachments && after.attachments[x] == db.attachments[x])
      && (forall i :: 0 <= i < |e.attachments| ==>
           && e.attachments[i].id in after.attachments
           && after.attachments[e.attachments[i].id] == AttachmentRow(e.id, e.attachments[i].path))
      && (forall x :: x in after.attachments ==>
           (x in db.attachments || exists i :: 0 <= i < |e.attachments| && x == e.attachments[i].id))
  {
    ConflictIsStoredId(db, e);
    if e.id !in db.emails {
      forall i | 0 <= i < |e.attachments| ensures e.attachments[i].id !in db.attachments {
        AttachmentIsNew(db, e, i);
      }
      forall i, j | 0 <= i < j < |e.attachments| ensures e.attachments[i].id != e.attachments[j].id {
        AttachmentsDiffer(e, i, j);
      }
      AttachmentsAllNew(db.attachments, e.id, e.attachments);
    }
  }

  /** A message is dropped as a duplicate exactly when its account, UIDVALIDITY and UID are already stored. */
  lemma DroppedOnlyIfStored(db: Database, e: Email)
    requires Consistent(db) && WellFormed(e)
    ensures SaveEmail(db, e).1 == Ignored <==> exists x :: x in db.emails && db.emails[x].key == e.key
  {
    SaveEffect(db, e);
  }

  /** The times of a row were written from instants of any year. */
  ghost predicate TimesWritten(row: EmailRow) {
    exists received: Instant, sent: Option<Instant> ::
      row.receivedAt == FormatTime(received) && row.sentAt == NullTime(sent)
  }

  /** Every row that the save leaves was there before or has times written from instants. */
  lemma SaveWritesTimes(db: Database, e: Email)
    ensures var after := SaveEmail(db, e).0.emails;
      forall x :: x in after ==> (x in db.emails && after[x] == db.emails[x]) || TimesWritten(after[x])
  {
    assert TimesWritten(RowOf(e));
  }

  /** The part of SaveEffect that speaks of emails and accounts. */
  lemma SaveEmails(db: Database, e: Email)
    requires Consistent(db) && WellFormed(e)
    ensures var after := SaveEmail(db, e).0;
      && after.accounts == db.accounts
      && after.emails == (if e.id !in db.emails && e.key.account in db.accounts then db.emails[e.id := RowOf(e)] else db.emails)
      && (e.id in db.emails ==> db.emails[e.id].key == e.key)
  {
    SaveEffect(db, e);
  }

  /** An attachment row that a save leaves belongs to a stored email, as its number says. */
  lemma SaveLinksRow(db: Database, e: Email, x: string)
    requires Consistent(db) && WellFormed(e) && x in SaveEmail(db, e).0.attachments
    ensures var after := SaveEmail(db, e).0;
      var row := after.attachments[x];
      row.email in after.emails && exists i: nat :: AttachmentOf(after.emails[row.email].key, i) == Attachment(x, row.path)
  {
    SaveEffect(db, e);
    var row := SaveEmail(db, e).0.attachments[x];
    if x in db.attachments {
      var i: nat :| AttachmentOf(db.emails[row.email].key, i) == Attachment(x, row.path);
    } else {
      var i :| 0 <= i < |e.attachments| && x == e.attachments[i].id;
      AttachmentIdAt(e, i);
      assert AttachmentOf(e.key, i + 1) == Attachment(x, row.path);
    }
  }

  lemma SaveKeepsConsistent(db: Database, e: Email)
    requires Consistent(db) && WellFormed(e)
    ensures Consistent(SaveEmail(db, e).0)
  {
    SaveEmails(db, e);
    var after := SaveEmail(db, e).0;
    forall x | x in after.attachments
      ensures after.attachments[x].email in after.emails
      ensures exists i: nat ::
        AttachmentOf(after.emails[after.attachments[x].email].key, i) == Attachment(x, after.attachments[x].path)
    {
      SaveLinksRow(db, e, x);
    }
  }

  lemma StatementsKeepConsistent(db: Database, id: string, validity: uint32, lastUid: uint32)
    requires Consistent(db)
    ensures Consistent(WithoutEmailsOf(db, id))
    ensures Consistent(UpdateCursor(db, id, validity, lastUid))
    ensures Consistent(ResetUidValidity(db, id, validity))
    ensures InsertAccount(db, id).Some? ==> Consistent(InsertAccount(db, id).value)
    ensures DeleteAccount(db, id).Some? ==> Consistent(DeleteAccount(db, id).value)
  {
    assert Consistent(WithoutEmailsOf(db, id));
  }

  // ----- one account's part of the database -----

  /** What the database holds for one account. */
  datatype Copy = Gone | Copy(validity: uint32, lastUid: uint32, stored: set<MessageId>)

  function View(db: Database, account: string): Copy {
    if account !in db.accounts then Gone
    else Copy(db.accounts[account].validity, db.accounts[account].lastUid,
              set e | e in db.emails && db.emails[e].key.account == account :: db.emails[e].key.message)
  }

  function SaveInto(c: Copy, m: MessageId): Copy {
    if c.Gone? then c else c.(stored := c.stored + {m})
  }

  function MoveCursor(c: Copy, validity: uint32, lastUid: uint32): Copy {
    if c.Gone? then c else c.(validity := validity, lastUid := lastUid)
  }

  function Reset(c: Copy, validity: uint32): Copy {
    if c.Gone? then c else Copy(validity, 0, {})
  }

  lemma SaveView(db: Database, e: Email, account: string)
    requires Consistent(db) && WellFormed(e)
    ensures View(SaveEmail(db, e).0, account) ==
      if account == e.key.account then SaveInto(View(db, account), e.key.message) else View(db, account)
  {
    SaveEmails(db, e);
    var db' := SaveEmail(db, e).0;
    if account in db.accounts {
      var s, s' := View(db, account).stored, View(db', account).stored;
      if e.id !in db.emails && e.key.account in db.accounts {
        assert db'.emails[e.id].key == e.key;
        forall m | m in s' ensures m in s || (account == e.key.account && m == e.key.message) {
          var x :| x in db'.emails && db'.emails[x].key == Key(account, m);
          assert x == e.id || db.emails[x].key == Key(account, m);
        }
        forall m | m in s ensures m in s' {
          var x :| x in db.emails && db.emails[x].key == Key(account, m);
          assert db'.emails[x].key == Key(account, m);
        }
      } else if e.id in db.emails {
        assert account == e.key.account ==> db.emails[e.id].key.message in s;
      }
      assert s' == if account == e.key.account then s + {e.key.message} else s;
    }
  }

  lemma CursorView(db: Database, id: string, validity: uint32, lastUid: uint32, account: string)
    ensures View(UpdateCursor(db, id, validity, lastUid), account) ==
      if account == id then MoveCursor(View(db, id), validity, lastUid) else View(db, account)
  {
  }

  lemma ResetView(db: Database, id: string, validity: uint32, account: string)
    ensures View(ResetUidValidity(db, id, validity), account) ==
      if account == id then Reset(View(db, id), validity) else View(db, account)
  {
    var db' := ResetUidValidity(db, id, validity);
    if account in db.accounts && account != id {
      forall m | m in View(db, account).stored ensures m in View(db', account).stored {
        var x :| x in db.emails && db.emails[x].key == Key(account, m);
        assert db'.emails[x].key == Key(account, m);
      }
      assert View(db', account).stored == View(db, account).stored;
    }
  }

  lemma DeleteView(db: Database, id: string, account: string)
    requires id in db.accounts
    ensures View(DeleteAccount(db, id).value, account) == if account == id then Gone else View(db, account)
    ensures forall e :: e in DeleteAccount(db, id).value.emails ==>
      DeleteAccount(db, id).value.emails[e].key.account != id
  {
    var db' := DeleteAccount(db, id).value;
    if account in db.accounts && account != id {
      forall m | m in View(db, account).stored ensures m in View(db', account).stored {
        var x :| x in db.emails && db.emails[x].key == Key(account, m);
        assert db'.emails[x].key == Key(account, m);
      }
      assert View(db', account).stored == View(db, account).stored;
    }
  }

  // ----- the object -----

  datatype Removal = Removed | NotFound | Failed

  class Store {
    var accounts: map<string, AccountRow>
    var emails: map<string, EmailRow>
    var attachments: map<string, AttachmentRow>

    function Db(): Database
      reads this
    {
      Database(accounts, emails, attachments)
    }

    constructor ()
      ensures Db() == Database(map[], map[], map[])
    {
      accounts, emails, attachments := map[], map[], map[];
    }

    /** Fails when the password cannot be encrypted, the identifier is taken or the database reports an error. */
    method CreateAccount(id: string, encrypts: bool, fault: Fault) returns (ok: bool)
      modifies this
      ensures ok == (encrypts && fault == Works && InsertAccount(old(Db()), id).Some?)
      ensures Db() == if encrypts && InsertAccount(old(Db()), id).Some?
                      then Committed(old(Db()), InsertAccount(old(Db()), id).value, fault) else old(Db())
    {
      if !encrypts || fault == FailsBefore || id in accounts { return false; }
      accounts := accounts[id := AccountRow(0, 0)];
      return fault == Works;
    }

    /** The persisted cursor, or None for domain.ErrNotFound. */
    method AccountSecret(id: string) returns (row: Option<AccountRow>)
      ensures row == if id in Db().accounts then Some(Db().accounts[id]) else None
    {
      row := if id in accounts then Some(accounts[id]) else None;
    }

    method CascadeFrom(account: string)
      modifies this`emails, this`attachments
      ensures Db() == WithoutEmailsOf(old(Db()), account)
    {
      emails := map e | e in emails && emails[e].key.account != account :: emails[e];
      attachments := map x | x in attachments && attachments[x].email in emails :: attachments[x];
    }

    method DeleteAccountRow(id: string, fault: Fault) returns (r: Removal)
      modifies this
      ensures r == if fault != Works then Failed else if id in old(accounts) then Removed else NotFound
      ensures Db() == if id in old(accounts) then Committed(old(Db()), DeleteAccount(old(Db()), id).value, fault)
                      else old(Db())
    {
      var found := id in accounts;
      if found && fault != FailsBefore {
        accounts := map a | a in accounts && a != id :: accounts[a];
        CascadeFrom(id);
      }
      return if fault != Works then Failed else if found then Removed else NotFound;
    }

    method ResetUIDValidity(id: string, validity: uint32, fault: Fault) returns (ok: bool)
      modifies this
      ensures ok == (fault == Works)
      ensures Db() == Committed(old(Db()), ResetUidValidity(old(Db()), id, validity), fault)
    {
      if fault == FailsBefore { return false; }
      CascadeFrom(id);
      if id in accounts {
        accounts := accounts[id := AccountRow(validity, 0)];
      }
      return fault == Works;
    }

    method CompleteSync(id: string, validity: uint32, lastUid: uint32, fault: Fault) returns (ok: bool)
      modifies this
      ensures ok == (fault == Works)
      ensures Db() == Committed(old(Db()), UpdateCursor(old(Db()), id, validity, lastUid), fault)
    {
      if fault != FailsBefore && id in accounts {
        accounts := accounts[id := AccountRow(validity, lastUid)];
      }
      return fault == Works;
    }

    /** Inserts the message row and its attachment rows in one transaction, or changes nothing. */
    method Save(email: Email, fault: Fault) returns (inserted: bool, ok: bool)
      modifies this
      ensures ok == (fault == Works && SaveEmail(old(Db()), email).1 != Refused)
      ensures inserted <==> ok && SaveEmail(old(Db()), email).1 == Inserted
      ensures Db() == Committed(old(Db()), SaveEmail(old(Db()), email).0, fault)
    {
      if fault == FailsBefore { return false, false; }
      if Conflicts(Db(), email) { return false, fault == Works; }
      if email.key.account !in accounts { return false, false; }
      var rows := attachments;
      var i := 0;
      while i < |email.attachments|
        invariant 0 <= i <= |email.attachments|
        invariant InsertAttachments(rows, email.id, email.attachments[i..])
               == InsertAttachments(attachments, email.id, email.attachments)
      {
        var a := email.attachments[i];
        if a.id in rows { return false, false; }
        rows := rows[a.id := AttachmentRow(email.id, a.path)];
        assert email.attachments[i..][1..] == email.attachments[i + 1..];
        i := i + 1;
      }
      emails, attachments := emails[email.id := RowOf(email)], rows;
      return fault == Works, fault == Works;
    }
  }
}
