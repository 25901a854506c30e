/**
  The monitor of one account as a step machine: the IMAP server, the rows the database holds for the
  account, the worker with its connection, the one-slot wake-up channel and the manual sync requests.
  Calls may fail with or without effect and the process may crash between any two steps.
 */
module Monitor {
  import opened Results
  import opened Store
  import opened Sync

  /** The INBOX. UIDs ascend and are never reused under one UIDVALIDITY (section 2.3.1.1 of RFC 3501). */
  datatype Server = Server(validity: uint32, live: set<uint32>, next: nat)

  /** Where sync stands. The snapshot is the mailbox at the search. */
  datatype Progress =
    | Begin
    | Searching
    | Fetching(snapshot: Server, uids: seq<uint32>, start: nat, j: nat, last: uint32)
    | Committing(snapshot: Server, uids: seq<uint32>, start: nat, j: nat, last: uint32)
    | Done(snapshot: Server)

  datatype Phase =
    | Down        // no worker, or the worker is about to read the account row
    | Connecting(account: AccountRow)
    | Working(account: AccountRow, selected: uint32, request: Option<nat>, at: Progress)
    | Idling(account: AccountRow, selected: uint32)       // at the select of the IDLE loop
    | Stopping(account: AccountRow, selected: uint32, request: Option<nat>)   // took a token or a request
    | Failing(request: Option<nat>)       // an error was returned; the reply, if any, is due
    | Backoff     // at the select of the reconnect wait

  datatype Reply = Nil(snapshot: Server) | Error

  /** A result channel of Manager.Sync: whether the worker took it, how often it sent, and the one slot. */
  datatype Request = Request(received: bool, sent: nat, slot: Option<Reply>)

  datatype State = State(
    server: Server,
    copy: Copy,
    phase: Phase,
    session: bool,      // the selected session is alive
    inflight: bool,     // an EXISTS response is on its way
    notify: bool,       // the one-slot channel holds a token
    news: bool,         // an EXISTS callback ran after the latest search (history variable)
    requests: map<nat, Request>)

  datatype Step =
    | Append(uid: uint32)
    | Expunge(gone: set<uint32>)
    | Renumber(server: Server)
    | LoseSession
    | DeleteRow
    | Crash
    | Load
    | ConnectFails
    | Select(given: bool)
    | Settle
    | ResetRows(fault: Fault)
    | SyncFails
    | Search
    | FetchMessage(fetch: Fetch)
    | Commit(fault: Fault)
    | FinishSync
    | IdleFails
    | TakeToken
    | TakeRequest(request: nat)
    | StopIdle
    | StopIdleFails
    | Exists
    | ReplyFailure
    | Retry
    | Exit
    | Offer(request: nat)
    | Withdraw(request: nat)
    | Collect(request: nat)

  // ----- the steps -----

  predicate HasConnection(p: Phase) { p.Working? || p.Idling? || p.Stopping? }

  function RequestOf(p: Phase): Option<nat> {
    match p
    case Working(_, _, r, _) => r
    case Stopping(_, _, r) => r
    case Failing(r) => r
    case _ => None
  }

  /** A send on a buffered channel of capacity one blocks while the slot is full. */
  predicate CanSend(s: State, r: Option<nat>) {
    r.Some? ==> r.value in s.requests && s.requests[r.value].slot.None?
  }

  function Send(requests: map<nat, Request>, r: Option<nat>, reply: Reply): map<nat, Request>
    requires r.Some? ==> r.value in requests
  {
    if r.None? then requests
    else requests[r.value := requests[r.value].(sent := requests[r.value].sent + 1, slot := Some(reply))]
  }

  predicate WellFormedServer(v: Server) {
    1 <= v.validity && 1 <= v.next <= 0x1_0000_0000 && forall u :: u in v.live ==> 1 <= u < v.next
  }

  predicate Enabled(s: State, step: Step) {
    match step
    case Append(u) => s.server.next <= u
    case Expunge(_) => true
    case Renumber(v) => s.server.validity < v.validity && WellFormedServer(v)
    case LoseSession => true
    case DeleteRow => true
    case Crash => true
    case Load => s.phase.Down? && s.copy.Copy?
    case ConnectFails => s.phase.Connecting?
    case Select(_) => s.phase.Connecting?
    case Settle => s.phase.Working? && s.phase.at.Begin? && s.phase.selected != 0 && s.phase.account.validity == s.phase.selected
    case ResetRows(_) => s.phase.Working? && s.phase.at.Begin? && s.phase.selected != 0 && s.phase.account.validity != s.phase.selected
    case SyncFails => s.phase.Working? && (s.phase.at.Searching? || (s.phase.at.Begin? && s.phase.selected == 0))
    case Search => s.phase.Working? && s.phase.at.Searching? && s.session
    case FetchMessage(_) => s.phase.Working? && s.phase.at.Fetching? && s.phase.at.j < |s.phase.at.uids|
    case Commit(_) => s.phase.Working? && s.phase.at.Committing?
    case FinishSync => s.phase.Working? && s.phase.at.Done? && CanSend(s, s.phase.request)
    case IdleFails => s.phase.Idling?
    case TakeToken => s.phase.Idling? && s.notify
    case TakeRequest(r) => (s.phase.Idling? || s.phase.Backoff?) && r in s.requests && !s.requests[r].received
    case StopIdle => s.phase.Stopping?
    case StopIdleFails => s.phase.Stopping?
    case Exists => HasConnection(s.phase)
    case ReplyFailure => s.phase.Failing? && CanSend(s, s.phase.request)
    case Retry => s.phase.Backoff?
    case Exit => s.phase.Idling? || s.phase.Backoff? || s.phase.Connecting?
    case Offer(r) => r !in s.requests
    case Withdraw(r) => r in s.requests && !s.requests[r].received
    case Collect(r) => r in s.requests && s.requests[r].slot.Some?
  }

  /** The connection and its channel are gone; the next connection gets new ones. */
  function Disconnected(s: State, p: Phase): State {
    s.(phase := p, session := false, inflight := false, notify := false, news := false)
  }

  function Fail(s: State, copy: Copy): State {
    s.(copy := copy, phase := Failing(RequestOf(s.phase)))
  }

  function AfterSearch(s: State): State
    requires Enabled(s, Search)
  {
    var p := s.phase;
    var uids := Listing(Matches(s.server.live, SearchStart(p.account.lastUid)));
    var last := p.account.lastUid;
    s.(news := false,
       phase := p.(at := if uids == [] then Committing(s.server, uids, 0, 0, last) else Fetching(s.server, uids, 0, 0, last)))
  }

  /** Where the loop goes after saving message at.j. */
  function Advanced(at: Progress): Progress
    requires at.Fetching? && at.j < |at.uids|
  {
    var last := Max(at.last, at.uids[at.j]);
    if ClosesBatch(at.j, |at.uids|) then Committing(at.snapshot, at.uids, at.start, at.j + 1, last)
    else Fetching(at.snapshot, at.uids, at.start, at.j + 1, last)
  }

  function AfterFetch(s: State, fetch: Fetch): State
    requires Enabled(s, FetchMessage(fetch))
  {
    var p := s.phase;
    match fetch
    case Unavailable => Fail(s, s.copy)
    case Fetched(_, _, _, fault) =>
      var copy := Apply(s.copy, SaveInto(s.copy, MessageId(p.account.validity, p.at.uids[p.at.j])), fault);
      if fault != Works || s.copy.Gone? then Fail(s, copy)
      else s.(copy := copy, phase := p.(at := Advanced(p.at)))
  }

  /** Where the loop goes after CompleteSync for a batch. */
  function AfterBatch(at: Progress): Progress
    requires at.Committing?
  {
    if at.j == |at.uids| then Done(at.snapshot) else Fetching(at.snapshot, at.uids, at.j, at.j, at.last)
  }

  function AfterCommit(s: State, fault: Fault): State
    requires Enabled(s, Commit(fault))
  {
    var p := s.phase;
    var copy := Apply(s.copy, MoveCursor(s.copy, p.account.validity, p.at.last), fault);
    if fault != Works then Fail(s, copy)
    else
      s.(copy := copy,
         phase := p.(account := p.account.(lastUid := p.at.last), at := AfterBatch(p.at)))
  }

  function Next(s: State, step: Step): State
    requires Enabled(s, step)
  {
    match step
    case Append(u) =>
      s.(server := s.server.(live := s.server.live + {u}, next := u + 1), inflight := s.inflight || s.session)
    case Expunge(gone) => s.(server := s.server.(live := s.server.live - gone))
    case Renumber(v) => s.(server := v, session := false)
    case LoseSession => s.(session := false)
    case DeleteRow => s.(copy := Gone)
    case Crash => Disconnected(s, Down).(requests := map[])
    case Load => s.(phase := Connecting(AccountRow(s.copy.validity, s.copy.lastUid)))
    case ConnectFails => Disconnected(s, Backoff)
    case Select(given) =>
      Disconnected(s, Working(s.phase.account, if given then s.server.validity else 0, None, Begin)).(session := true)
    case Settle => s.(phase := s.phase.(at := Searching))
    case ResetRows(fault) =>
      var copy := Apply(s.copy, Reset(s.copy, s.phase.selected), fault);
      if fault != Works then Fail(s, copy)
      else s.(copy := copy, phase := s.phase.(account := AccountRow(s.phase.selected, 0), at := Searching))
    case SyncFails => Fail(s, s.copy)
    case Search => AfterSearch(s)
    case FetchMessage(fetch) => AfterFetch(s, fetch)
    case Commit(fault) => AfterCommit(s, fault)
    case FinishSync =>
      s.(requests := Send(s.requests, s.phase.request, Nil(s.phase.at.snapshot)),
         phase := Idling(s.phase.account, s.phase.selected))
    case IdleFails => Fail(s, s.copy)
    case TakeToken => s.(notify := false, phase := Stopping(s.phase.account, s.phase.selected, None))
    case TakeRequest(r) =>
      s.(requests := s.requests[r := s.requests[r].(received := true)],
         phase := if s.phase.Idling? then Stopping(s.phase.account, s.phase.selected, Some(r)) else Failing(Some(r)))
    case StopIdle => s.(phase := Working(s.phase.account, s.phase.selected, s.phase.request, Begin))
    case StopIdleFails => Fail(s, s.copy)
    case Exists => s.(inflight := false, notify := true, news := true)
    case ReplyFailure => Disconnected(s, Backoff).(requests := Send(s.requests, s.phase.request, Error))
    case Retry => s.(phase := Down)
    case Exit => Disconnected(s, Down)
    case Offer(r) => s.(requests := s.requests[r := Request(false, 0, None)])
    case Withdraw(r) => s.(requests := map q | q in s.requests && q != r :: s.requests[q])
    case Collect(r) => s.(requests := s.requests[r := s.requests[r].(slot := None)])
  }

  predicate Initial(s: State) {
    && WellFormedServer(s.server)
    && s.copy == Copy(0, 0, {})
    && s.phase == Down && !s.session && !s.inflight && !s.notify && !s.news
    && s.requests == map[]
  }

  // ----- the properties -----

  predicate Has(c: Copy, u: uint32) { c.Copy? && MessageId(c.validity, u) in c.stored }

  /** The persisted rows and the server speak of the same UIDVALIDITY. */
  predicate Aligned(v: Server, c: Copy) { c.Copy? && c.validity == v.validity }

  /** Every live message at or below the persisted cursor has a row. */
  predicate NoGap(v: Server, c: Copy) {
    Aligned(v, c) ==> forall u :: u in v.live && u <= c.lastUid ==> Has(c, u)
  }

  /** The live messages above the cursor that are stored already. */
  function Ahead(v: Server, c: Copy): set<uint32>
    requires c.Copy?
  {
    set u | u in v.live && c.lastUid < u && Has(c, u)
  }

  /** Those are the lowest live messages above the cursor, and at most one batch of them. */
  predicate BoundedRework(v: Server, c: Copy) {
    Aligned(v, c) ==>
      && (forall u, w :: u in v.live && Has(c, u) && w in v.live && c.lastUid < w < u ==> Has(c, w))
      && |Ahead(v, c)| <= BATCH
  }

  /** Every row carries the account's persisted UIDVALIDITY. */
  predicate Coherent(c: Copy) {
    c.Copy? ==> forall m :: m in c.stored ==> m.validity == c.validity
  }

  predicate AllStored(v: Server, c: Copy) {
    forall u :: u in v.live ==> Has(c, u) && u <= c.lastUid
  }

  /** At a select with no token and no EXISTS on its way, everything on the server is stored. */
  predicate QuietMeansComplete(s: State) {
    s.phase.Idling? && s.session && !s.notify && !s.inflight && s.copy.Copy? ==>
      Aligned(s.server, s.copy) && AllStored(s.server, s.copy)
  }

  /** An EXISTS callback after the latest search is not forgotten. */
  predicate NoLostWakeUp(s: State) {
    s.news && !s.notify ==>
      s.phase.Stopping? || s.phase.Failing? || (s.phase.Working? && (s.phase.at.Begin? || s.phase.at.Searching?))
  }

  /** A received request has been answered once, unless the worker holds it: then not at all. */
  predicate OneReply(s: State) {
    && (forall r :: r in s.requests ==>
         var q := s.requests[r];
         && q.sent == (if q.received && RequestOf(s.phase) != Some(r) then 1 else 0)
         && (q.sent == 0 ==> q.slot.None?))
    && (RequestOf(s.phase).Some? ==>
         RequestOf(s.phase).value in s.requests && s.requests[RequestOf(s.phase).value].received)
  }

  // ----- the invariant that carries them -----

  predicate WithinServer(v: Server, c: Copy) {
    && WellFormedServer(v)
    && (c.Copy? ==> c.validity <= v.validity)
    && (Aligned(v, c) ==> c.lastUid < v.next && forall m :: m in c.stored ==> m.uid < v.next)
  }

  predicate RowsOk(v: Server, c: Copy) {
    WithinServer(v, c) && NoGap(v, c) && BoundedRework(v, c) && Coherent(c)
  }

  predicate HasAccount(p: Phase) { p.Connecting? || HasConnection(p) }

  /** The worker's account is the persisted row, and the selected UIDVALIDITY is the server's or older. */
  predicate InStep(s: State) {
    && (HasAccount(s.phase) && s.copy.Copy? ==>
         && s.phase.account == AccountRow(s.copy.validity, s.copy.lastUid)
         && (HasConnection(s.phase) && s.phase.selected != 0 ==> s.copy.validity <= s.phase.selected))
    && (HasConnection(s.phase) ==>
         var p := s.phase;
         && p.selected <= s.server.validity
         && (s.session && p.selected != 0 ==> p.selected == s.server.validity)
         && (!(p.Working? && p.at.Begin?) ==> p.selected != 0 && p.account.validity == p.selected))
  }

  function End(start: nat, n: nat): nat { if start + BATCH > n then n else start + BATCH }

  /** The list being fetched, from snapshot v, against the cursor and the rows. */
  predicate ListOk(c: Copy, v: Server, uids: seq<uint32>, start: nat, j: nat, last: uint32)
    requires c.Copy?
  {
    && Ascending(uids) && start <= j <= End(start, |uids|) && start % BATCH == 0
    && (forall u :: u in uids ==> u in v.live)
    && (forall t :: 0 <= t < j ==> Has(c, uids[t]) && uids[t] <= last)
    && (forall t :: 0 <= t < start ==> uids[t] <= c.lastUid)
    && c.lastUid <= last && (last == c.lastUid || (j > 0 && last == uids[j - 1]))
    && (forall u :: u in v.live && u !in uids ==> u <= c.lastUid && Has(c, u))
  }

  /** What is stored above the cursor belongs to the batch at hand. */
  predicate AheadInBatch(now: Server, c: Copy, uids: seq<uint32>, start: nat)
    requires c.Copy? && start <= |uids|
  {
    Aligned(now, c) ==> forall u :: u in Ahead(now, c) ==> u in uids[start..End(start, |uids|)]
  }

  /** The server has only grown upwards from snapshot v, under one UIDVALIDITY. */
  predicate SnapshotOk(now: Server, c: Copy, v: Server)
    requires c.Copy?
  {
    && WellFormedServer(v) && v.validity == c.validity && c.lastUid < v.next
    && (Aligned(now, c) ==> v.next <= now.next && forall u :: u in now.live ==> u in v.live || v.next <= u)
  }

  predicate ProgressOk(now: Server, c: Copy, at: Progress)
    requires c.Copy?
  {
    match at
    case Fetching(v, uids, start, j, last) =>
      SnapshotOk(now, c, v) && ListOk(c, v, uids, start, j, last) && AheadInBatch(now, c, uids, start) && j < End(start, |uids|)
    case Committing(v, uids, start, j, last) =>
      SnapshotOk(now, c, v) && ListOk(c, v, uids, start, j, last) && AheadInBatch(now, c, uids, start) && j == End(start, |uids|)
    case Done(v) => SnapshotOk(now, c, v) && AllStored(v, c)
    case _ => true
  }

  predicate SyncOk(s: State) {
    s.phase.Working? && s.copy.Copy? ==> ProgressOk(s.server, s.copy, s.phase.at)
  }

  predicate HasSnapshot(p: Phase) {
    p.Working? && (p.at.Fetching? || p.at.Committing? || p.at.Done?)
  }

  /** Messages that arrived after the snapshot are announced or about to be. */
  predicate ArrivalsAnnounced(s: State) {
    HasSnapshot(s.phase) && s.session && !s.inflight && !s.notify ==> s.server.live <= s.phase.at.snapshot.live
  }

  predicate Inv(s: State) {
    && RowsOk(s.server, s.copy) && InStep(s) && SyncOk(s) && ArrivalsAnnounced(s)
    && QuietMeansComplete(s) && NoLostWakeUp(s) && OneReply(s)
  }
}
