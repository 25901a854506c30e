/** What each statement leaves in the tables, row by row. */
module StoreEffects {
  import opened Results
  import opened Text
  import opened TimeText
  import opened Store

  // ----- identifiers -----

  /** The hashed text, and the identifiers of attachments, on samples. */
  lemma IdentifierSamples()
    ensures EmailId(Key("ac_1", MessageId(7, 12))) == "em_" + "ac_1:7:12"
    ensures AttachmentId("em_x", 3) == "em_x-a003" && AttachmentId("em_x", 1234) == "em_x-a1234"
  {
    assert Decimal(12) == Decimal(1) + ['2'];
    assert Padded(3, 3) == Zeros(2) + Decimal(3);
    assert Decimal(1234) == Decimal(123) + ['4'] && Decimal(123) == Decimal(12) + ['3'];
  }

  // ----- rows -----

  /** The row of the message and exactly its attachment rows, each with its path. */
  ghost predicate Holds(db: Database, key: Key, row: EmailRow, count: nat) {
    var id := EmailId(key);
    && id in db.emails && db.emails[id] == row
    && (forall i :: 1 <= i <= count ==>
         && AttachmentOf(key, i).id in db.attachments
         && db.attachments[AttachmentOf(key, i).id] == AttachmentRow(id, AttachmentOf(key, i).path))
    && (forall x :: x in db.attachments && db.attachments[x].email == id ==>
         exists i :: 1 <= i <= count && x == AttachmentOf(key, i).id)
  }

  /** The row of an email and its attachment rows are the same before and after. */
  ghost predicate Kept(before: Database, after: Database, e: string) {
    && e in before.emails && e in after.emails && after.emails[e] == before.emails[e]
    && (forall x :: x in before.attachments && before.attachments[x].email == e ==>
         x in after.attachments && after.attachments[x] == before.attachments[x])
    && (forall x :: x in after.attachments && after.attachments[x].email == e ==>
         x in before.attachments && before.attachments[x] == after.attachments[x])
  }

  lemma KeptTwice(a: Database, b: Database, c: Database, e: string)
    requires Kept(a, b, e) && Kept(b, c, e)
    ensures Kept(a, c, e)
  {
  }

  lemma HeldIsKept(before: Database, after: Database, key: Key, row: EmailRow, count: nat)
    requires Holds(before, key, row, count) && Kept(before, after, EmailId(key))
    ensures Holds(after, key, row, count)
  {
  }

  lemma SavedAttachment(db: Database, e: Email, i: nat)
    requires Consistent(db) && WellFormed(e) && SaveEmail(db, e).1 == Inserted && 1 <= i <= |e.attachments|
    ensures var after, a := SaveEmail(db, e).0.attachments, AttachmentOf(e.key, i);
      a.id in after && after[a.id] == AttachmentRow(e.id, a.path)
  {
    SaveEffect(db, e);
    AttachmentIdAt(e, i - 1);
  }

  lemma NoStrangeAttachment(db: Database, e: Email, x: string)
    requires Consistent(db) && WellFormed(e) && SaveEmail(db, e).1 == Inserted
    requires x in SaveEmail(db, e).0.attachments && SaveEmail(db, e).0.attachments[x].email == e.id
    ensures exists i :: 1 <= i <= |e.attachments| && x == AttachmentOf(e.key, i).id
  {
    SaveEffect(db, e);
    if x !in db.attachments {
      var i :| 0 <= i < |e.attachments| && x == e.attachments[i].id;
      AttachmentIdAt(e, i);
      assert x == AttachmentOf(e.key, i + 1).id;
    }
  }

  /** A message that is inserted gets its row, with both times as text, and all its attachment rows. */
  lemma InsertedHolds(db: Database, key: Key, receivedAt: Instant, sentAt: Option<Instant>, count: nat)
    requires Consistent(db) && SaveEmail(db, EmailWith(key, receivedAt, sentAt, count)).1 == Inserted
    ensures Holds(SaveEmail(db, EmailWith(key, receivedAt, sentAt, count)).0, key,
                  EmailRow(key, FormatTime(receivedAt), NullTime(sentAt)), count)
  {
    var e := EmailWith(key, receivedAt, sentAt, count);
    var after := SaveEmail(db, e).0;
    SaveEffect(db, e);
    forall i | 1 <= i <= count
      ensures AttachmentOf(key, i).id in after.attachments
      ensures after.attachments[AttachmentOf(key, i).id] == AttachmentRow(EmailId(key), AttachmentOf(key, i).path)
    {
      SavedAttachment(db, e, i);
    }
    forall x | x in after.attachments && after.attachments[x].email == EmailId(key)
      ensures exists i :: 1 <= i <= count && x == AttachmentOf(key, i).id
    {
      NoStrangeAttachment(db, e, x);
    }
  }

  lemma AddedElsewhere(db: Database, e: Email, x: string)
    requires Consistent(db) && WellFormed(e) && x in SaveEmail(db, e).0.attachments && x !in db.attachments
    ensures SaveEmail(db, e).0.attachments[x].email == e.id
  {
    SaveEffect(db, e);
  }

  /** A save leaves every row that is there as it was. */
  lemma SaveKeepsRows(db: Database, e: Email, x: string)
    requires Consistent(db) && WellFormed(e) && x in db.emails
    ensures Kept(db, SaveEmail(db, e).0, x)
  {
    SaveEffect(db, e);
    var after := SaveEmail(db, e).0;
    forall y | y in after.attachments && after.attachments[y].email == x
      ensures y in db.attachments && db.attachments[y] == after.attachments[y]
    {
      if y !in db.attachments { AddedElsewhere(db, e, y); }
    }
  }

  // ----- the other statements -----

  lemma InsertExactly(db: Database, id: string)
    ensures InsertAccount(db, id) ==
      if id in db.accounts then None else Some(Database(db.accounts[id := AccountRow(0, 0)], db.emails, db.attachments))
  {
  }

  /** The cascade removes the emails of one account with their attachment rows, and no other row. */
  lemma CascadeExactly(db: Database, account: string)
    requires Consistent(db)
    ensures var after := WithoutEmailsOf(db, account);
      && after.accounts == db.accounts
      && (forall e :: e in after.emails <==> e in db.emails && db.emails[e].key.account != account)
      && (forall e :: e in after.emails ==> after.emails[e] == db.emails[e])
      && (forall x :: x in after.attachments <==>
           x in db.attachments && db.emails[db.attachments[x].email].key.account != account)
      && (forall x :: x in after.attachments ==> after.attachments[x] == db.attachments[x])
  {
  }

  lemma CascadeKeepsOthers(db: Database, account: string, e: string)
    requires Consistent(db) && e in db.emails && db.emails[e].key.account != account
    ensures Kept(db, WithoutEmailsOf(db, account), e)
  {
    CascadeExactly(db, account);
  }

  lemma DeleteExactly(db: Database, id: string)
    ensures DeleteAccount(db, id) ==
      if id !in db.accounts then None
      else Some(WithoutEmailsOf(db, id).(accounts := db.accounts - {id}))
  {
    if id in db.accounts {
      assert DeleteAccount(db, id).value.accounts == db.accounts - {id};
    }
  }

  /** Moving a cursor changes one account row and nothing else. */
  lemma CursorExactly(db: Database, id: string, validity: uint32, lastUid: uint32)
    ensures var after := UpdateCursor(db, id, validity, lastUid);
      && after.emails == db.emails && after.attachments == db.attachments
      && after.accounts == if id in db.accounts then db.accounts[id := AccountRow(validity, lastUid)] else db.accounts
  {
  }

  lemma ResetExactly(db: Database, id: string, validity: uint32)
    ensures ResetUidValidity(db, id, validity) == UpdateCursor(WithoutEmailsOf(db, id), id, validity, 0)
  {
  }

  /** The stored set of an account is the set of messages whose identifiers have rows. */
  lemma ViewMeans(db: Database, account: string, m: MessageId)
    requires Consistent(db) && account in db.accounts
    ensures m in View(db, account).stored <==>
      EmailId(Key(account, m)) in db.emails && db.emails[EmailId(Key(account, m))].key == Key(account, m)
  {
  }
}
