/** The paged inbox: ORDER BY received_at DESC, id DESC with LIMIT and OFFSET. */
module Inbox {
  import opened Results
  import opened Text
  import opened TimeText
  import opened Store
  import A = Attachments
  import AttachmentRuns

  /** What the query sorts by, which identifies a row. */
  datatype Row = Row(id: string, receivedAt: string)

  /** The rows that the filter selects; an empty account selects all. */
  function Matching(emails: map<string, EmailRow>, account: string): set<Row> {
    set e | e in emails && (account == "" || emails[e].key.account == account) :: Row(e, emails[e].receivedAt)
  }

  /** a is listed before b. */
  predicate Newer(a: Row, b: Row) {
    Less(b.receivedAt, a.receivedAt) || (a.receivedAt == b.receivedAt && Less(b.id, a.id))
  }

  predicate Descending(l: seq<Row>) {
    forall i, j :: 0 <= i < j < |l| ==> Newer(l[i], l[j])
  }

  lemma NewerTotal(a: Row, b: Row)
    ensures a == b || Newer(a, b) || Newer(b, a)
  {
    LessTotal(a.receivedAt, b.receivedAt);
    LessTotal(a.id, b.id);
  }

  lemma NewerTransitive(a: Row, b: Row, c: Row)
    requires Newer(a, b) && Newer(b, c)
    ensures Newer(a, c)
  {
    LessIrreflexive(b.receivedAt);
    if a.receivedAt == b.receivedAt && b.receivedAt == c.receivedAt {
      LessTransitive(c.id, b.id, a.id);
    } else if a.receivedAt != b.receivedAt && b.receivedAt != c.receivedAt {
      LessTransitive(c.receivedAt, b.receivedAt, a.receivedAt);
    }
  }

  lemma NewerAsymmetric(a: Row, b: Row)
    requires Newer(a, b)
    ensures !Newer(b, a)
  {
    if Newer(b, a) {
      NewerTransitive(a, b, a);
      LessIrreflexive(a.receivedAt);
      LessIrreflexive(a.id);
    }
  }

  predicate First(rows: set<Row>, m: Row) {
    m in rows && forall r :: r in rows && r != m ==> Newer(m, r)
  }

  lemma {:induction false} FirstExists(rows: set<Row>) returns (m: Row)
    requires rows != {}
    ensures First(rows, m)
  {
    var x :| x in rows;
    m := x;
    var rest := rows - {x};
    if rest == {} {
      forall r | r in rows ensures r == x { assert r in rest || r == x; }
    } else {
      var k := FirstExists(rest);
      NewerTotal(k, x);
      if Newer(k, x) { m := k; }
      forall r | r in rows && r != m ensures Newer(m, r) {
        assert r == x || r in rest;
        if m == x && r != k { NewerTransitive(x, k, r); }
      }
    }
  }

  lemma FirstUnique(rows: set<Row>, m: Row, n: Row)
    requires First(rows, m) && First(rows, n)
    ensures m == n
  {
    if m != n { NewerAsymmetric(m, n); }
  }

  lemma OneFirst(rows: set<Row>)
    requires rows != {}
    ensures exists m :: First(rows, m)
    ensures forall m, n :: First(rows, m) && First(rows, n) ==> m == n
  {
    var _ := FirstExists(rows);
    forall m, n | First(rows, m) && First(rows, n) ensures m == n { FirstUnique(rows, m, n); }
  }

  function Newest(rows: set<Row>): (m: Row)
    requires rows != {}
    ensures First(rows, m)
  {
    OneFirst(rows);
    var m :| m in rows && First(rows, m);
    m
  }

  /** The rows in the order of the query. */
  function Ordered(rows: set<Row>): (l: seq<Row>)
    ensures |l| == |rows| && Descending(l) && forall r :: r in l <==> r in rows
    decreases |rows|
  {
    if rows == {} then []
    else
      var m := Newest(rows);
      var rest := Ordered(rows - {m});
      assert forall i :: 0 <= i < |rest| ==> rest[i] in rows - {m};
      [m] + rest
  }

  lemma SameHead(l: seq<Row>, k: seq<Row>)
    requires l != [] && k != [] && Descending(l) && Descending(k) && l[0] in k && k[0] in l
    ensures l[0] == k[0]
  {
    if l[0] != k[0] {
      assert Newer(l[0], k[0]) && Newer(k[0], l[0]);
      NewerAsymmetric(l[0], k[0]);
    }
  }

  lemma TailHas(l: seq<Row>, r: Row)
    requires l != [] && Descending(l)
    ensures r in l[1..] <==> r in l && r != l[0]
  {
    forall i | 1 <= i < |l| ensures l[i] != l[0] {
      NewerAsymmetric(l[0], l[i]);
    }
    assert l == [l[0]] + l[1..];
  }

  lemma {:induction false} OneListing(l: seq<Row>, k: seq<Row>)
    requires Descending(l) && Descending(k) && forall r :: r in l <==> r in k
    ensures l == k
  {
    assert k == [] || k[0] in k;
    if l != [] {
      assert l[0] in k;
      assert k[0] in l;
      SameHead(l, k);
      forall r ensures r in l[1..] <==> r in k[1..] {
        TailHas(l, r);
        TailHas(k, r);
      }
      OneListing(l[1..], k[1..]);
      assert l == [l[0]] + l[1..] && k == [k[0]] + k[1..];
    }
  }

  /** ORDER BY leaves no freedom: identifiers are unique, so a descending listing of the rows is the listing. */
  lemma OneOrder(rows: set<Row>, l: seq<Row>)
    requires Descending(l) && forall r :: r in l <==> r in rows
    ensures l == Ordered(rows)
  {
    OneListing(l, Ordered(rows));
  }

  // ----- pages -----

  function Min(a: int, b: int): int { if a < b then a else b }

  lemma OffsetInOrder(page: nat, size: nat)
    requires 1 <= page
    ensures 0 <= (page - 1) * size
  {
  }

  /** LIMIT size OFFSET (page-1)*size. */
  function PageOf<T>(l: seq<T>, page: nat, size: nat): seq<T>
    requires 1 <= page && 1 <= size
  {
    OffsetInOrder(page, size);
    l[Min((page - 1) * size, |l|)..Min((page - 1) * size + size, |l|)]
  }

  function Pages<T>(l: seq<T>, count: nat, size: nat): seq<T>
    requires 1 <= size
  {
    if count == 0 then [] else Pages(l, count - 1, size) + PageOf(l, count, size)
  }

  lemma {:induction false} FirstPages<T>(l: seq<T>, count: nat, size: nat)
    requires 1 <= size
    ensures 0 <= count * size
    ensures Pages(l, count, size) == l[..Min(count * size, |l|)]
  {
    if count > 0 {
      FirstPages(l, count - 1, size);
      assert count * size == (count - 1) * size + size;
    }
  }

  /** ceil(total / size). */
  function PageCount(total: nat, size: nat): nat
    requires 1 <= size
  {
    (total + size - 1) / size
  }

  lemma MultiplyUp(a: nat, b: nat, size: nat)
    requires a <= b
    ensures a * size <= b * size
  {
  }

  lemma PageCountCovers(total: nat, size: nat, page: nat)
    requires 1 <= size && PageCount(total, size) < page
    ensures total <= PageCount(total, size) * size
    ensures total <= (page - 1) * size
  {
    var n := PageCount(total, size);
    assert total + size - 1 == n * size + (total + size - 1) % size;
    MultiplyUp(n, page - 1, size);
  }

  /** Concatenating pages 1 to ceil(total / size) gives the whole listing once; every later page is empty. */
  lemma PagesPartition<T>(l: seq<T>, size: nat, page: nat)
    requires 1 <= size && PageCount(|l|, size) < page
    ensures Pages(l, PageCount(|l|, size), size) == l
    ensures PageOf(l, page, size) == []
  {
    FirstPages(l, PageCount(|l|, size), size);
    PageCountCovers(|l|, size, page);
  }

  // ----- the query -----

  // ----- the table itself -----

  lemma {:induction false} RowsCount(emails: map<string, EmailRow>, ids: set<string>)
    requires forall e :: e in ids ==> e in emails
    ensures |set e | e in ids :: Row(e, emails[e].receivedAt)| == |ids|
  {
    var rows := set e | e in ids :: Row(e, emails[e].receivedAt);
    if ids == {} {
      assert rows == {};
    } else {
      var x :| x in ids;
      var rest := set e | e in ids - {x} :: Row(e, emails[e].receivedAt);
      RowsCount(emails, ids - {x});
      assert rows == rest + {Row(x, emails[x].receivedAt)};
    }
  }

  /** The rows of the listing are the identifiers of the account, or all of them, each with its time. */
  lemma MatchingIs(emails: map<string, EmailRow>, account: string)
    ensures var ids := set e | e in emails && (account == "" || emails[e].key.account == account);
      && |Ordered(Matching(emails, account))| == |ids|
      && (forall r :: r in Ordered(Matching(emails, account)) <==> r.id in ids && r.receivedAt == emails[r.id].receivedAt)
  {
    var ids := set e | e in emails && (account == "" || emails[e].key.account == account);
    RowsCount(emails, ids);
    assert Matching(emails, account) == set e | e in ids :: Row(e, emails[e].receivedAt);
  }

  /** A row is listed before another with an earlier time, or with the same time and a smaller identifier. */
  lemma ListedInOrder(emails: map<string, EmailRow>, account: string, i: nat, j: nat)
    requires i < j < |Ordered(Matching(emails, account))|
    ensures var a, b := Ordered(Matching(emails, account))[i], Ordered(Matching(emails, account))[j];
      && a.id != b.id
      && (Less(b.receivedAt, a.receivedAt) || (a.receivedAt == b.receivedAt && Less(b.id, a.id)))
  {
    var l := Ordered(Matching(emails, account));
    assert Newer(l[i], l[j]) && l[i] in l && l[j] in l;
    MatchingIs(emails, account);
    LessIrreflexive(l[i].id);
    LessIrreflexive(l[i].receivedAt);
  }

  /** All pages together show each selected message of the table exactly once, and no other. */
  lemma PagesShowEachOnce(emails: map<string, EmailRow>, account: string, size: nat)
    requires 1 <= size
    ensures var ids := set e | e in emails && (account == "" || emails[e].key.account == account);
      var shown := Pages(Ordered(Matching(emails, account)), PageCount(|ids|, size), size);
      && |shown| == |ids|
      && (forall i :: 0 <= i < |shown| ==> shown[i].id in ids && shown[i].receivedAt == emails[shown[i].id].receivedAt)
      && (forall e :: e in ids ==> exists i :: 0 <= i < |shown| && shown[i].id == e)
      && (forall i, j :: 0 <= i < j < |shown| ==> shown[i].id != shown[j].id)
  {
    var ids := set e | e in emails && (account == "" || emails[e].key.account == account);
    var l := Ordered(Matching(emails, account));
    MatchingIs(emails, account);
    PagesPartition(l, size, PageCount(|l|, size) + 1);
    forall i | 0 <= i < |l| ensures l[i].id in ids && l[i].receivedAt == emails[l[i].id].receivedAt { assert l[i] in l; }
    forall e | e in ids ensures exists i :: 0 <= i < |l| && l[i].id == e { assert Row(e, emails[e].receivedAt) in l; }
    forall i, j | 0 <= i < j < |l| ensures l[i].id != l[j].id { ListedInOrder(emails, account, i, j); }
  }

  /** No smaller number of pages holds everything. */
  lemma PageCountIsLeast(total: nat, size: nat, n: nat)
    requires 1 <= size && total <= n * size
    ensures PageCount(total, size) <= n
  {
    var q := PageCount(total, size);
    assert total + size - 1 == q * size + (total + size - 1) % size;
    assert (n + 1) * size == n * size + size;
    if n < q { MultiplyUp(n + 1, q, size); }
  }

  datatype Summary = Summary(id: string, receivedAt: Instant, sentAt: Option<Instant>)

  predicate RowReadable(row: EmailRow) {
    ParseTime(row.receivedAt).Some? && (row.sentAt.Some? ==> ParseTime(row.sentAt.value).Some?)
  }

  predicate Stored(emails: map<string, EmailRow>, rows: seq<Row>) {
    forall i :: 0 <= i < |rows| ==> rows[i].id in emails
  }

  /** Every time of every row can be parsed. */
  predicate Readable(emails: map<string, EmailRow>, rows: seq<Row>)
    requires Stored(emails, rows)
  {
    forall i :: 0 <= i < |rows| ==> RowReadable(emails[rows[i].id])
  }

  predicate Shows(item: Summary, id: string, row: EmailRow) {
    && item.id == id && ParseTime(row.receivedAt) == Some(item.receivedAt)
    && (if row.sentAt.None? then item.sentAt == None
        else item.sentAt.Some? && ParseTime(row.sentAt.value) == item.sentAt)
  }

  lemma SliceIsPart<T>(l: seq<T>, lo: nat, hi: nat, i: nat)
    requires lo <= hi <= |l| && i < hi - lo
    ensures l[lo..hi][i] in l
  {
    assert l[lo..hi][i] == l[lo + i];
  }

  lemma PageIsPart<T>(l: seq<T>, page: nat, size: nat, i: nat)
    requires 1 <= page && 1 <= size && i < |PageOf(l, page, size)|
    ensures PageOf(l, page, size)[i] in l
  {
    OffsetInOrder(page, size);
    SliceIsPart(l, Min((page - 1) * size, |l|), Min((page - 1) * size + size, |l|), i);
  }

  lemma MatchingStored(emails: map<string, EmailRow>, account: string, r: Row)
    requires r in Matching(emails, account)
    ensures r.id in emails && r.receivedAt == emails[r.id].receivedAt
  {
  }

  lemma PageStored(emails: map<string, EmailRow>, account: string, page: nat, size: nat)
    requires 1 <= page && 1 <= size
    ensures Stored(emails, PageOf(Ordered(Matching(emails, account)), page, size))
  {
    var l := Ordered(Matching(emails, account));
    var rows := PageOf(l, page, size);
    forall i | 0 <= i < |rows| ensures rows[i].id in emails {
      PageIsPart(l, page, size, i);
      MatchingStored(emails, account, rows[i]);
    }
  }

  class Reader {
    var emails: map<string, EmailRow>

    constructor (emails: map<string, EmailRow>)
      ensures this.emails == emails
    {
      this.emails := emails;
    }

    /** The row loop: a received or sent time that does not parse ends it with an error. */
    method ReadRows(rows: seq<Row>) returns (items: seq<Summary>, ok: bool)
      requires Stored(emails, rows)
      ensures ok == Readable(emails, rows)
      ensures ok ==> |items| == |rows| && forall i :: 0 <= i < |rows| ==> Shows(items[i], rows[i].id, emails[rows[i].id])
    {
      items := [];
      for i := 0 to |rows|
        invariant |items| == i
        invariant forall j :: 0 <= j < i ==> RowReadable(emails[rows[j].id])
        invariant forall j :: 0 <= j < i ==> Shows(items[j], rows[j].id, emails[rows[j].id])
      {
        var row := emails[rows[i].id];
        var received := ParseTime(row.receivedAt);
        if received.None? {
          assert !RowReadable(emails[rows[i].id]);
          return items, false;
        }
        var sent := None;
        if row.sentAt.Some? {
          sent := ParseTime(row.sentAt.value);
          if sent.None? {
            assert !RowReadable(emails[rows[i].id]);
            return items, false;
          }
        }
        items := items + [Summary(rows[i].id, received.value, sent)];
      }
      return items, true;
    }

    /** COUNT, and then the query for the requested page. */
    method ListEmails(account: string, page: nat, size: nat)
      returns (items: seq<Summary>, total: nat, ok: bool)
      requires 1 <= page && 1 <= size
      ensures total == |set e | e in emails && (account == "" || emails[e].key.account == account)|
      ensures ok ==> forall i :: 0 <= i < |items| ==>
        items[i].id in emails && (account == "" || emails[items[i].id].key.account == account)
      ensures var rows := PageOf(Ordered(Matching(emails, account)), page, size);
        && Stored(emails, rows)
        && ok == Readable(emails, rows)
        && (ok ==> |items| == |rows| && forall i :: 0 <= i < |rows| ==> Shows(items[i], rows[i].id, emails[rows[i].id]))
    {
      var matching := Matching(emails, account);
      total := |matching|;
      MatchingIs(emails, account);
      PageStored(emails, account, page, size);
      var rows := PageOf(Ordered(matching), page, size);
      forall i | 0 <= i < |rows| ensures account == "" || emails[rows[i].id].key.account == account {
        PageIsPart(Ordered(matching), page, size, i);
      }
      items, ok := ReadRows(rows);
    }
  }

  // ----- when listing succeeds -----

  /** The row was written from instants of the years 0 to 9999. */
  ghost predicate InFourDigitYears(row: EmailRow) {
    exists received: Instant, sent: Option<Instant> ::
      && row.receivedAt == FormatTime(received) && row.sentAt == NullTime(sent)
      && received.Valid() && (sent.Some? ==> sent.value.Valid())
  }

  lemma SentReadable(sent: Option<Instant>)
    ensures (NullTime(sent).Some? ==> ParseTime(NullTime(sent).value).Some?) <==> (sent.Some? ==> sent.value.Valid())
  {
    if sent.Some? { ReadableTimes(sent.value); }
  }

  lemma ReadableBy(row: EmailRow, received: Instant, sent: Option<Instant>)
    requires row.receivedAt == FormatTime(received) && row.sentAt == NullTime(sent)
    ensures RowReadable(row) <==> received.Valid() && (sent.Some? ==> sent.value.Valid())
  {
    ReadableTimes(received);
    SentReadable(sent);
  }

  lemma YearsMakeReadable(row: EmailRow)
    requires InFourDigitYears(row)
    ensures RowReadable(row)
  {
    var received: Instant, sent: Option<Instant> :|
      && row.receivedAt == FormatTime(received) && row.sentAt == NullTime(sent)
      && received.Valid() && (sent.Some? ==> sent.value.Valid());
    ReadableBy(row, received, sent);
  }

  lemma ReadableShowsYears(row: EmailRow)
    requires TimesWritten(row) && RowReadable(row)
    ensures InFourDigitYears(row)
  {
    var received: Instant, sent: Option<Instant> :| row.receivedAt == FormatTime(received) && row.sentAt == NullTime(sent);
    ReadableBy(row, received, sent);
  }

  lemma RowReadableIff(row: EmailRow)
    requires TimesWritten(row)
    ensures RowReadable(row) <==> InFourDigitYears(row)
  {
    if RowReadable(row) { ReadableShowsYears(row); }
    if InFourDigitYears(row) { YearsMakeReadable(row); }
  }

  /** In every reachable store a page is listed if and only if all its times lie in the years 0 to 9999. */
  lemma ListsExactly(trace: seq<A.State>, steps: seq<A.Step>, n: nat, account: string, page: nat, size: nat)
    requires A.Run(trace, steps) && n < |trace| && 1 <= page && 1 <= size
    ensures var emails := trace[n].db.emails;
      var rows := PageOf(Ordered(Matching(emails, account)), page, size);
      && Stored(emails, rows)
      && (Readable(emails, rows) <==> forall i :: 0 <= i < |rows| ==> InFourDigitYears(emails[rows[i].id]))
  {
    var emails := trace[n].db.emails;
    var rows := PageOf(Ordered(Matching(emails, account)), page, size);
    PageStored(emails, account, page, size);
    forall i | 0 <= i < |rows| ensures RowReadable(emails[rows[i].id]) <==> InFourDigitYears(emails[rows[i].id]) {
      AttachmentRuns.TimesAlwaysWritten(trace, steps, n, rows[i].id);
      RowReadableIff(emails[rows[i].id]);
    }
  }

  lemma OnlyRow(emails: map<string, EmailRow>, id: string)
    requires emails.Keys == {id}
    ensures Ordered(Matching(emails, "")) == [Row(id, emails[id].receivedAt)]
  {
    var row := Row(id, emails[id].receivedAt);
    forall r ensures r in Matching(emails, "") <==> r == row {
      assert id in emails;
    }
    OneOrder(Matching(emails, ""), [row]);
  }

  lemma FirstPageOfOne<T>(x: T, size: nat)
    requires 1 <= size
    ensures PageOf([x], 1, size) == [x]
  {
  }

  lemma BlocksPage(emails: map<string, EmailRow>, id: string, t: Instant, size: nat)
    requires emails.Keys == {id} && emails[id].sentAt == NullTime(Some(t)) && !t.Valid() && 1 <= size
    ensures var rows := PageOf(Ordered(Matching(emails, "")), 1, size);
      Stored(emails, rows) && |rows| == 1 && !Readable(emails, rows)
  {
    OnlyRow(emails, id);
    FirstPageOfOne(Row(id, emails[id].receivedAt), size);
    var rows := PageOf(Ordered(Matching(emails, "")), 1, size);
    ReadableTimes(t);
    assert !RowReadable(emails[rows[0].id]);
  }

  /** The store after the first message of the first account, which was sent at the given time. */
  function FirstMessage(k: Key, receivedAt: Instant, sentAt: Instant): map<string, EmailRow> {
    SaveEmail(InsertAccount(Database(map[], map[], map[]), k.account).value,
              Email(EmailId(k), k, receivedAt, Some(sentAt), [])).0.emails
  }

  lemma FirstMessageStored(k: Key, receivedAt: Instant, sentAt: Instant)
    ensures FirstMessage(k, receivedAt, sentAt)
         == map[EmailId(k) := EmailRow(k, FormatTime(receivedAt), NullTime(Some(sentAt)))]
  {
  }

  predicate FirstPageFails(emails: map<string, EmailRow>, size: nat)
    requires 1 <= size
  {
    var rows := PageOf(Ordered(Matching(emails, "")), 1, size);
    Stored(emails, rows) && !Readable(emails, rows)
  }

  /** A first message sent outside the years 0 to 9999 is stored, and then its page cannot be listed. */
  lemma UnreadableMessageBlocksPage(k: Key, receivedAt: Instant, sentAt: Instant, size: nat)
    requires !sentAt.Valid() && 1 <= size
    ensures FirstPageFails(FirstMessage(k, receivedAt, sentAt), size)
  {
    FirstMessageStored(k, receivedAt, sentAt);
    BlocksPage(FirstMessage(k, receivedAt, sentAt), EmailId(k), sentAt, size);
  }

  /** So it is with a message dated 9999-12-31T23:59:59-01:00. */
  lemma LateMessageBlocksPage(k: Key, receivedAt: Instant, size: nat) returns (sentAt: Instant)
    requires 1 <= size
    ensures FormatTime(sentAt) == "10000-01-01T00:59:59Z"
    ensures FirstPageFails(FirstMessage(k, receivedAt, sentAt), size)
  {
    sentAt := LateInstant();
    UnreadableMessageBlocksPage(k, receivedAt, sentAt, size);
  }

  lemma TextNewestFirst(p: Row, q: Row, x: EmailRow, y: EmailRow)
    requires Newer(p, q) && x.receivedAt == p.receivedAt && y.receivedAt == q.receivedAt
    requires TimesWritten(x) && TimesWritten(y)
    ensures var a, b := ParseTime(p.receivedAt), ParseTime(q.receivedAt);
      a.Some? && b.Some? ==> b.value.sec <= a.value.sec
  {
    var a: Instant, s: Option<Instant> :| x.receivedAt == FormatTime(a) && x.sentAt == NullTime(s);
    var b: Instant, t: Option<Instant> :| y.receivedAt == FormatTime(b) && y.sentAt == NullTime(t);
    ReadableTimes(a);
    ReadableTimes(b);
    if a.Valid() && b.Valid() {
      ParseInvertsFormat(a);
      ParseInvertsFormat(b);
      if a.sec < b.sec {
        TextOrderAcrossSeconds(a, b);
        LessAsymmetric(FormatTime(a), FormatTime(b));
        LessIrreflexive(FormatTime(a));
      }
    }
  }

  /** Readable stored mail is listed newest first, to the second. */
  lemma NewestFirst(trace: seq<A.State>, steps: seq<A.Step>, n: nat, account: string, i: nat, j: nat)
    requires A.Run(trace, steps) && n < |trace|
    requires i < j < |Ordered(Matching(trace[n].db.emails, account))|
    ensures var l := Ordered(Matching(trace[n].db.emails, account));
      var a, b := ParseTime(l[i].receivedAt), ParseTime(l[j].receivedAt);
      a.Some? && b.Some? ==> b.value.sec <= a.value.sec
  {
    var emails := trace[n].db.emails;
    var l := Ordered(Matching(emails, account));
    assert l[i] in l && l[j] in l && Newer(l[i], l[j]);
    AttachmentRuns.TimesAlwaysWritten(trace, steps, n, l[i].id);
    AttachmentRuns.TimesAlwaysWritten(trace, steps, n, l[j].id);
    TextNewestFirst(l[i], l[j], emails[l[i].id], emails[l[j].id]);
  }

}
