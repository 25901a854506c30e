# Paperwing: a model of mail ingestion and the protocols around it

Paperwing keeps one private inbox for several IMAP accounts. One goroutine per account keeps an IMAP
connection, downloads every message above a persisted `(uid_validity, last_uid)` cursor into SQLite and
waits in IDLE for more. This project models that engine with the tables it writes, and six smaller
protocols beside it, and proves what each of them keeps over every run.

## How the model is laid out

| file | what it holds |
|---|---|
| `Results`, `Text` | options; decimal text, separators and byte order |
| `Calendar`, `TimeText`, `TimeSamples` | dates and day numbers; RFC 3339 text with trimmed fractions, its parser and its order; the text of an instant field by field |
| `Store`, `StoreEffects` | the tables `accounts`, `emails`, `attachments`, their keys and cascades; the class `Store`; what each statement does to each row |
| `Sync`, `SyncRows`, `SyncLoop` | the batched sync loop as a specification on one account's view and on the whole database, what it leaves in each row, and the class that runs it over the store |
| `Convergence` | what failing and repeated syncs leave behind |
| `Monitor`, `MonitorSafety`, `MonitorRuns` | one account as a step machine (server, rows, worker, channels), its invariant, and what every run keeps |
| `Accounts` | creating an account and deleting it with everything it owns |
| `Lifecycle`, `LifecycleRuns` | the worker map, and account creation and deletion racing with workers |
| `MailParse`, `Attachments`, `AttachmentRuns` | the part loop of the parser; attachment rows against attachment files; the parser as a run of that machine |
| `Sessions`, `SessionRuns` | sessions and API tokens whose expiry is compared as text; what every run of them keeps |
| `Inbox` | the paged listing |
| `MasterKey` | publication of the master key by racing processes |
| `Throttle` | the login throttle with requests in flight |
| `Config`, `ConfigRoundTrip`, `ConfigLines` | the shell-quoted configuration file: writer, reader, round trip, and what each line means |

`Store`, the two `Manager` classes, `Service`, `Parser`, `AuthStore`, `Reader`, `Directory`, `LoginThrottle` and
`ConfigFile` are classes whose methods work step by step as the program does, and each method is proved
against a function of the inputs and the old state. Concurrency is modelled by step machines: a run is any
sequence of enabled steps from an initial state. In the machines of the monitor, the lifecycle, the attachments
and the master key every call may fail with or without effect, and the process may end between any two steps
and start again. The throttle lives in memory and is empty after a restart.

## What is assumed

- The server follows RFC 3501. Section 2.3.1.1: UIDs ascend, are never reused under one UIDVALIDITY, and a
  new UIDVALIDITY is greater than the old one and does not appear within a session. Section 6.4.8:
  `n:*` always selects the last message. An arrival is announced by EXISTS to a live session.
- A search result reaches the loop in ascending order. `Convergence.SafeOrders` gives the exact condition
  under which the loop would be safe without this, and `Convergence.UnsortedResultLosesMail` a result that
  loses a message.
- Hashes (of message identities, session tokens and API tokens) do not collide, so the hashed text stands
  for the hash. Random identifiers, tokens and names of temporary files are fresh.
- SQLite enforces foreign keys and unique keys, and its transactions are atomic. A commit that reports an
  error may or may not have taken effect.
- Whether a message parses, and every failure of a call to the network, a file or the random source, is an
  input of the model. So are all clock readings.

## Results that are exact conditions

Some properties one might expect of the code do not hold on every input. For these the project states
when they hold and when they do not.

- Time text sorts as time across seconds. Within one second it is reversed exactly when the digits of the
  earlier fraction begin the digits of the later one (`TimeText.TextOrderWithinSecond`), and this is
  exactly when a session or a token is judged wrongly (`Sessions.ExpiryJudgement`). The program's README
  says that sessions expire after 30 days; the code, which is followed here, may be off by less than a second.
- An attachment row keeps its file in every step except one in which copying over a stored attachment
  fails; that step removes the file (`Attachments.OnlyFailedCopyLosesFile`).
- Files of a deleted account can come back exactly if, when `Delete` began, its identifier was not drawn yet,
  or its row was there and a start of it was due (`LifecycleRuns.FileFreeExactly`).
- A page of the inbox is listed exactly when all its received and sent times lie in the years 0 to 9999
  (`Inbox.ListsExactly`). A `Date` header just before year 10000 with a negative offset lies outside
  (`Inbox.LateMessageBlocksPage`).
- With at most k login requests of one client in flight a window records at most 4 + 6k failures, ten for
  one at a time, and this bound is reached for every k (`Throttle.InFlightBound`, `Throttle.BoundIsReached`).
  A success clears the entry, so each success allows as many again (`Throttle.FailureBound`).
- Reading the configuration back gives the two values exactly when neither contains a line separator;
  otherwise reading fails (`ConfigRoundTrip.RoundTrip`).

## Model

| member | source | states |
|---|---|---|
| Store.EmailIdInjective | internal/imapmon/manager.go:422-425 | `%s:%d:%d` determines account, UIDVALIDITY and UID, also when the account contains colons |
| Store.PathInjective | internal/mailparse/parser.go:109-119 | two attachments of any messages never share a path: the path determines the message and the number |
| Store.SaveEffect | internal/store/store.go:233-267 | a save is ignored exactly when the identifier is stored and refused exactly when the account is gone, both without effect; otherwise the returned database has the message row and one attachment row for each of its attachments, all old rows, and no others |
| Store.DroppedOnlyIfStored | internal/store/store.go:246-258 | `INSERT OR IGNORE` drops a message if and only if the same account, UIDVALIDITY and UID are stored already |
| Store.SaveKeepsConsistent | internal/store/store.go:233-267 | after a save every row still carries the identifier computed for it and every foreign key holds |
| Store.SaveWritesTimes | internal/store/store.go:246-252 | a save adds no row whose times were not written by formatTime and nullTime from instants |
| StoreEffects.IdentifierSamples | internal/mailparse/parser.go:119 | the hashed text and the numbered attachment identifiers, written out on samples |
| StoreEffects.InsertedHolds | internal/store/store.go:246-265 | a message that is inserted has its row with received and sent time as text, attachment rows 1 to n with their paths, and no other attachment row |
| StoreEffects.SaveKeepsRows | internal/store/store.go:233-267 | a save leaves every stored message and all its attachment rows as they were |
| StoreEffects.CascadeExactly | internal/store/store.go:195-222 | deleting the emails of an account removes exactly its email rows and their attachment rows and changes no other row |
| StoreEffects.DeleteExactly | internal/store/store.go:195-205 | a deletion takes one account row away, with exactly the cascade of that account |
| StoreEffects.ViewMeans | internal/store/store.go:233-267 | a message counts as stored for an account exactly when the row with its identifier is there and carries its account, UIDVALIDITY and UID |
| Store.StatementsKeepConsistent | internal/store/store.go:131-231 | creating, deleting and resetting an account and moving its cursor keep identifiers and foreign keys right |
| Store.SaveView | internal/store/store.go:233-267 | a save adds the message to its own account's stored set, twice or not at all being the same, and leaves every other account alone |
| Store.ResetView | internal/store/store.go:212-225 | a reset empties one account, sets its cursor to zero under the new UIDVALIDITY, and leaves every other account alone |
| Store.DeleteView | internal/store/store.go:195-205 | a deletion removes the account with all its email rows and leaves every other account alone |
| Store.Store.CreateAccount | internal/store/store.go:131-141 | inserts a row with cursor (0, 0); fails without effect when the password cannot be encrypted or the identifier is taken, and an error of the database may or may not have inserted it |
| Store.Store.DeleteAccountRow | internal/store/store.go:195-205 | tells removed, not found and database error apart; the account goes with everything that cascades from it, or nothing changes |
| Store.Store.ResetUIDValidity | internal/store/store.go:212-225 | both statements take effect or neither does, whatever the commit reports |
| Store.Store.CompleteSync | internal/store/store.go:227-231 | moves the cursor of an existing account and changes nothing else |
| Store.Store.Save | internal/store/store.go:233-267 | the row loop ends in the database of `SaveEmail`, of which `Store.SaveEffect` says what each row is: all rows of the message together, or the database as it was; reports insertion, duplicate and error |
| SyncLoop.Manager.FetchOne | internal/imapmon/manager.go:343-420 | one message: if it was not stored and all works, its row has the received and the sent time that were fetched and its attachment rows are exactly 1 to n with their paths; every other row stays; errors are reported |
| SyncLoop.Manager.Complete | internal/imapmon/manager.go:330-339 | the commit at the end of a batch moves this account's cursor and changes nothing else in the database |
| SyncLoop.Manager.FetchBatch | internal/imapmon/manager.go:322-329 | the inner loop leaves the database from which the specification commits this batch, with the highest UID saved, or the one at its first failure |
| SyncLoop.Manager.Batches | internal/imapmon/manager.go:316-334 | the nested loops end in the database, the worker's cursor and the result that the specification of the loop gives, for every script of failures |
| SyncLoop.Manager.Sync | internal/imapmon/manager.go:296-341 | the whole sync, with reset, wrapped search start and empty result, ends as specified; every new row is a message of the search result with the times and attachments that were fetched for it; all other rows stay unless UIDVALIDITY changed, and other accounts keep theirs in any case |
| SyncRows.FetchAdds | internal/imapmon/manager.go:343-420 | saving one fetched message keeps every row and adds none but that message's, with its times and attachments |
| SyncRows.SyncRefines | internal/imapmon/manager.go:296-341 | for every script of failures the sync on the whole database is the sync on its account's cursor and stored set, and touches no other account |
| SyncRows.SyncStores | internal/imapmon/manager.go:296-341 | after a sync that fails anywhere or nowhere, each row is an old one unchanged or holds what was fetched for a UID of the search result |
| Convergence.LoopOutcomes | internal/imapmon/manager.go:316-336 | wherever the loop stops, it has saved a prefix of the list, and the cursor stands at a batch boundary at most 25 messages behind it |
| Convergence.SearchSelects | internal/imapmon/manager.go:310-312 | for every cursor, also the highest UID whose successor wraps to 0, the search selects what is above the cursor and the last message |
| Convergence.AllSavedIsPlain | internal/imapmon/manager.go:296-341 | a completed loop has saved everything wanted and set the cursor to the maximum |
| Convergence.PartialKeepsGoal | internal/imapmon/manager.go:296-341 | continuing from any partial state aims at the same final rows and cursor |
| Convergence.SyncOutcomes | internal/imapmon/manager.go:296-341 | one sync changes nothing, or leaves a partial state of its list, or succeeds and leaves the plain result |
| Convergence.RetriesConverge | internal/imapmon/manager.go:296-341 | any attempts failing anywhere, then one that succeeds, leave what "save all, then set the cursor to the maximum" leaves |
| Convergence.UninterruptedIsPlain | internal/imapmon/manager.go:296-341 | a sync in which nothing fails succeeds and equals that plain form |
| Convergence.SafeOrders | internal/imapmon/manager.go:316-336 | for a search result in any order: no failure leaves a gap if and only if the result is sorted across batch boundaries |
| Convergence.UnsortedResultLosesMail | internal/imapmon/manager.go:316-336 | a result that lists a high UID first lets the cursor pass an unsaved message |
| MonitorSafety.AppendKeepsInv | internal/imapmon/manager.go:189-197 | an arriving message breaks nothing: it is above the cursor and announced to a live session |
| MonitorSafety.ExpungeKeepsInv | internal/imapmon/manager.go:316-336 | messages may vanish from the server at any point of a sync |
| MonitorSafety.AheadIsFirstBatch | internal/imapmon/manager.go:310-321 | what is stored above the cursor when a search runs lies within the first batch of its result |
| MonitorSafety.SearchKeepsInv | internal/imapmon/manager.go:310-316 | a search starts a list under which no message can be missed |
| MonitorSafety.FetchKeepsInv | internal/imapmon/manager.go:322-329 | a save, a failed save and a save that only reports failure all keep the invariant |
| MonitorSafety.CommitKeepsInv | internal/imapmon/manager.go:330-339 | a commit of the cursor, also one that takes effect but reports failure, keeps the invariant |
| MonitorSafety.ResetKeepsInv | internal/imapmon/manager.go:300-309 | the reset at a new UIDVALIDITY keeps the invariant, whatever its commit does |
| MonitorSafety.StepKeepsInv | internal/imapmon/manager.go:145-341 | every step of server, worker, channels and callers keeps the invariant |
| MonitorSafety.Safety | internal/imapmon/manager.go:145-341 | the invariant holds in every state of every run |
| MonitorRuns.CursorLeavesNoGap | internal/imapmon/manager.go:316-336 | no gap: every live message at or below the persisted cursor has a row, so the cursor never passes one that keeps failing |
| MonitorRuns.CursorNeverDecreases | internal/imapmon/manager.go:300-336 | over any run the persisted cursor never moves back under one UIDVALIDITY, and no UIDVALIDITY returns |
| MonitorRuns.RowsCarryPersistedValidity | internal/store/store.go:212-267 | every email row of an account carries that account's persisted UIDVALIDITY |
| MonitorRuns.SearchRepeatsAtMostABatch | internal/imapmon/manager.go:316-336 | the stored messages that a search selects again are exactly its first k, with k at most 25 |
| MonitorRuns.SnapshotIsFromSearch | internal/imapmon/manager.go:310-316 | the list being fetched comes from a search of this same sync |
| MonitorRuns.NilReplyMeansStored | internal/imapmon/manager.go:92-111 | a nil reply to a manual sync means that every message the mailbox held at a search after the request was taken is stored and at or below the cursor |
| MonitorRuns.NilFoundMeansStored | internal/imapmon/manager.go:92-111 | whoever finds a nil reply: it was sent at the end of a sync for that request, and the mailbox of that sync's search was stored and at or below the cursor then |
| MonitorRuns.OneReplyPerRequest | internal/imapmon/manager.go:168-259 | back at a select or stopped, the worker has sent exactly one reply to each request it took |
| MonitorRuns.SendNeverBlocks | internal/imapmon/manager.go:99-110 | the one slot of the reply channel is free whenever the worker has a reply to send |
| MonitorRuns.WakeUpIsNotLost | internal/imapmon/manager.go:189-256 | an EXISTS callback after the latest search leaves a token, a search still to come, or a connection that is ending |
| MonitorRuns.QuietWorkerIsUpToDate | internal/imapmon/manager.go:215-261 | a worker waiting in IDLE with no token and no announcement on its way has stored the whole mailbox |
| MonitorRuns.LoopIsPath | internal/imapmon/manager.go:316-336 | from any point of the batched loop the step machine can follow the loop's specification to its end |
| MonitorRuns.DownloadIsPath | internal/imapmon/manager.go:310-341 | searching and downloading, as specified, is a run of the step machine |
| MonitorRuns.SyncIsPath | internal/imapmon/manager.go:296-341 | one call of sync against a still server is a run of the step machine with the same rows, cursor and result |
| Lifecycle.Manager.StartAccount | internal/imapmon/manager.go:60-80 | one new goroutine and the map entry for it, or nothing when the account has an entry; map and goroutines still agree |
| Lifecycle.Manager.LookUpAndCancel | internal/imapmon/manager.go:82-89 | returns the goroutine in the map, if any, and cancels that one only |
| Lifecycle.Manager.RemoveEntry | internal/imapmon/manager.go:72-76 | the deferred delete drops the entry of its own goroutine and no other |
| Lifecycle.Manager.StopAccount | internal/imapmon/manager.go:82-90 | when it returns, the observed worker is cancelled, out of the map and closed, no goroutine of the account is left, and all others are as they were |
| Accounts.Service.Create | internal/accounts/service.go:52-71 | succeeds exactly for valid input, a working connection, a new identifier, an encrypted password and a working database, then row and worker are there; an insertion that only reports failure leaves the row without a worker |
| Accounts.Service.Delete | internal/accounts/service.go:77-83 | stops the worker first; once the row is deleted exactly the account's files are removed, except those that resist; on success no row, email, file or worker of the account is left; a missing row, a database error or a remaining file is reported; other accounts keep rows, files and workers |
| Accounts.DeleteUndoesCreate | internal/accounts/service.go:52-83 | deleting a new account restores the database exactly |
| LifecycleRuns.StepKeepsInv | internal/accounts/service.go:52-83 | every critical section, write, creation, deletion and restart of the process keeps the invariant |
| LifecycleRuns.Safety | internal/imapmon/manager.go:49-90 | the invariant holds in every state of every run, across restarts |
| LifecycleRuns.OneWorkerPerAccount | internal/imapmon/manager.go:60-80 | in every interleaving at most one goroutine is inside run for an account |
| LifecycleRuns.RemovesOwnEntry | internal/imapmon/manager.go:72-76 | although it deletes by account, the deferred delete finds its own goroutine in the map and leaves all other entries |
| LifecycleRuns.StoppedWorkerIsSilent | internal/imapmon/manager.go:82-90 | once StopAccount has returned, the worker it observed writes nothing more in any continuation |
| LifecycleRuns.DeletedEmailsStayAway | internal/accounts/service.go:77-83 | after the row is deleted no continuation, restarts included, holds an email row of the account, even when StartAccount inside Create runs late |
| LifecycleRuns.DeletedFilesStayAway | internal/accounts/service.go:77-83 | no attachment file of the account reappears, restarts included, if it had been created and no start of it was due when Delete began |
| LifecycleRuns.OthersAreKept | internal/accounts/service.go:77-83 | whatever happens to other accounts, an account keeps its row, its emails and its files in any continuation, restarts included |
| LifecycleRuns.LateStartLeavesFile | internal/accounts/service.go:52-83 | a worker started by Create after Delete has looked it up can write a file that Delete never sees |
| LifecycleRuns.UnsettledDeleteCanLeaveFile | internal/accounts/service.go:52-83 | from every state in which Delete begins before Create returned, a run leads to a successful Delete and a remaining file |
| LifecycleRuns.EarlyDeleteCanLeaveFile | internal/accounts/service.go:52-83 | so it does from every state in which Delete begins before the identifier is drawn |
| LifecycleRuns.FileFreeExactly | internal/accounts/service.go:52-83 | at the moment Delete begins, some continuation lets it succeed and then holds a file of the account if and only if the identifier is not drawn yet, or its row is there and a start of it is due |
| MailParse.CollectedIs | internal/mailparse/parser.go:49-106 | folding the parts gives attachments 1 to n, numbered consecutively, with names, types, content identifiers and sizes, and the first non-empty text of each kind |
| MailParse.FirstTextIs | internal/mailparse/parser.go:78-94 | the body is the first non-empty text of its kind, cut to ten mebibytes, and empty exactly if there is none |
| MailParse.TrimAnglesIs | internal/mailparse/parser.go:69-70 | the content identifier loses exactly the angle brackets at both ends |
| MailParse.DetailsAt | internal/mailparse/parser.go:57-76 | the k-th saved part has the k-th details: its own, with number k |
| MailParse.TreeIs | internal/mailparse/parser.go:49-106 | the files written by parts that all succeed are exactly attachments 1 to n |
| MailParse.Parser.SaveAttachment | internal/mailparse/parser.go:109-136 | a file that cannot be opened changes nothing, a failed copy leaves no file at the path, a finished one leaves the file |
| MailParse.Parser.TakePart | internal/mailparse/parser.go:57-105 | one part: which file it writes, which attachment or text it contributes, and that it stops the loop exactly when it fails |
| MailParse.Parser.Parse | internal/mailparse/parser.go:49-107 | stops at the first part that fails and leaves exactly the files written until then; otherwise returns an email that is well formed for the store, with all attachments in part order |
| Attachments.SaveKeepsFiles | internal/store/store.go:233-267 | saved attachment rows name files that the parser has written |
| Attachments.StepKeepsBase | internal/imapmon/manager.go:300-309 | rows, jobs and deleted accounts stay consistent in every step, crashes included |
| Attachments.OnlyFailedCopyLosesFile | internal/mailparse/parser.go:119-133 | while every row has its file, a step breaks this if and only if it is a failed copy over a stored attachment |
| Attachments.RowsPointAtFiles | internal/accounts/service.go:77-83 | in runs without such a copy every attachment row points at a file, at every crash point of save, reset and delete |
| Attachments.FilesLostOnlyByFailedCopies | internal/mailparse/parser.go:119-133 | in every run, all rows have had their files all along if and only if no copy over a stored attachment has failed |
| Attachments.RefetchCanLoseFile | internal/mailparse/parser.go:119-133 | it can happen to any message with a stored first attachment that is downloaded again |
| AttachmentRuns.ParseIsPath | internal/mailparse/parser.go:49-136 | parsing a message, as specified for the parser, is a run of the attachment machine that leaves the same files and the same job |
| AttachmentRuns.SavesParsedEmail | internal/imapmon/manager.go:407-418 | after it the machine saves exactly the email that the parser returned |
| AttachmentRuns.TimesAlwaysWritten | internal/store/store.go:246-252 | in every run each stored row has times that were written from instants |
| Calendar.DateOf | internal/store/store.go:406 | the calendar date of a day number, valid and with that number; `Calendar.DayNumber` and `Calendar.MonthStarts` fix which calendar this is |
| Calendar.MonthStarts | internal/store/store.go:406 | the months begin after 0, 31, 59, 90, 120, 151, 181, 212, 243, 273, 304 and 334 days, one more from March on in leap years |
| Calendar.DayNumber | internal/store/store.go:406 | the number of a date in closed form: 365 days a year, a leap day every 4 years but not every 100 unless every 400, the month's start and the day |
| Calendar.FourDigitYears | internal/store/store.go:406 | the four-digit year shows exactly the instants of the 3652425 days from year 0 to 9999 |
| Calendar.DateOrder | internal/store/store.go:406 | calendar order is the order of day numbers |
| Calendar.CivilRepeats | internal/store/store.go:406 | the calendar repeats after 146097 days over all years, also before year 0 |
| Calendar.CivilYears | internal/store/store.go:406 | the years 0 to 9999 are exactly the first 3652425 days, and earlier days have a negative year |
| TimeText.ScanInvertsRender | internal/store/store.go:406-408 | parsing a layout of fixed-width fields gives back the rendered numbers and the rest of the text |
| TimeText.ParsesFraction | internal/store/store.go:406-408 | parsing a fraction with trimmed zeros gives back the nanoseconds |
| TimeText.ParseInvertsFormat | internal/store/store.go:406-408 | parseTime inverts formatTime for every UTC instant of years 0 to 9999 |
| TimeText.FormatInjective | internal/store/store.go:406-408 | distinct instants have distinct texts |
| TimeSamples.TextOf | internal/store/store.go:406 | the text of every instant is its year, month, day, hour, minute, second and fraction, each in its place |
| TimeSamples.SpringText | internal/store/store.go:406 | 739372 days, 13:07:09 and 120 milliseconds after the start of year 0 is written 2024-05-01T13:07:09.12Z |
| TimeSamples.ZeroText | internal/store/store.go:410-415 | the zero time, which is stored as NULL when it is a sent time, is midnight of 0001-01-01 |
| TimeText.ReadableTimes | internal/store/store.go:406-408 | for instants of any year, parseTime accepts what formatTime wrote if and only if the year lies in 0 to 9999 |
| TimeText.LateInstant | internal/store/store.go:406-408 | 9999-12-31T23:59:59-01:00 is written as 10000-01-01T00:59:59Z and cannot be read back |
| TimeText.TextOrder | internal/store/store.go:281 | text order is decided by the second, and within a second by the text of the fraction |
| TimeText.TextOrderAcrossSeconds | internal/store/store.go:281 | string order equals time order whenever the seconds differ |
| TimeText.TextOrderWithinSecond | internal/store/store.go:281 | within one second string order is right exactly when the earlier fraction's digits do not begin the later one's, and reversed otherwise |
| TimeText.ReversedWithinSecond | internal/store/store.go:281 | in every second, .5Z sorts before Z and .123Z before .12Z |
| Sessions.AuthStore.SetupAuth | internal/store/auth.go:27-49 | the first administrator and its session appear together, as the setup step of the run; with an administrator, or a token already present, nothing changes |
| Sessions.AuthStore.SaveAuthSession | internal/store/auth.go:51-55 | moves the tables as the save step of the run; a repeated token fails and changes nothing |
| Sessions.AuthStore.AuthSessionValid | internal/store/auth.go:57-62 | the answer is that of real time: the session was opened, not logged out and has not expired, for a clock not behind an earlier purge and outside the second of expiry |
| Sessions.AuthStore.DeleteAuthSession | internal/store/auth.go:64-67 | moves the tables as the logout step of the run; on success the session is gone, and every other session stays with the same expiry |
| Sessions.AuthStore.DeleteExpiredAuthSessions | internal/store/auth.go:69-72 | moves the tables as the purge step of the run and keeps exactly the sessions that AuthSessionValid would accept at that time |
| Sessions.AuthStore.Login | internal/auth/service.go:131-154 | no session without an administrator, matching credentials and a drawn token; otherwise the save step, with the text of the instant 30 days from now as expiry, then the purge step whose failure is ignored; errors of database and random source are told apart from wrong credentials |
| Sessions.AuthStore.Open | internal/auth/service.go:144-153 | saves the new session and then purges; the purge never takes the session just opened |
| Sessions.ThirtyDays | internal/auth/service.go:174-184 | a session opened now is accepted until 2592000 seconds later and never after, to the second |
| Sessions.AuthStore.SaveAPIToken | internal/store/api_tokens.go:13-23 | moves the tables as the issue step of the run; a repeated id or hash fails, and on success exactly this grant is added |
| Sessions.AuthStore.APITokenByHash | internal/store/api_tokens.go:43-51 | finds a token exactly when one with this hash was issued, not revoked and has not expired in real time, outside the second of expiry |
| Sessions.AuthStore.TouchAPIToken | internal/store/api_tokens.go:53-58 | moves the tables as the use step of the run; afterwards the recorded use is this one or at most five minutes older, to the second |
| Sessions.AuthStore.DeleteAPIToken | internal/store/api_tokens.go:60-72 | moves the tables as the revoke step of the run, keeps every other token as it was and reports whether there was such a token |
| Sessions.ExpiryJudgement | internal/store/auth.go:57-62 | a stored expiry is judged as real time would judge it if and only if the two texts do not mislead, which needs one and the same second |
| Sessions.TokenJudgement | internal/store/api_tokens.go:43-51 | a token without expiry is always accepted, and one with expiry until then, with the same exact exception |
| Sessions.UseIsRecorded | internal/store/api_tokens.go:53-58 | after a use the recorded use is at most five minutes older, to the second, and a recent one is not rewritten |
| Sessions.PurgeKeepsSessions | internal/store/auth.go:69-72 | for every text format that sorts as time across seconds, a purge removes only sessions whose expiry lies in a past or current second |
| Sessions.StepKeepsInv | internal/auth/service.go:104-161 | every step of setup, login, logout, purge and token handling keeps tables, sessions and grants in agreement |
| SessionRuns.SessionsRefine | internal/auth/service.go:104-161 | after any run of setup, login, logout and purge a session is valid exactly when it was opened, not logged out and not expired, outside the second of its expiry |
| SessionRuns.OpenedIsLive | internal/store/auth.go:27-67 | a session that setup or login opened and that was not itself logged out is live, with the expiry it was opened with, after any run |
| SessionRuns.LiveWasOpened | internal/store/auth.go:27-67 | every live session was opened with that expiry by some step of the run |
| SessionRuns.TokensRefine | internal/store/api_tokens.go:43-51 | after any run a token is found exactly when it was issued, not revoked and has not expired, outside the second of its expiry |
| SessionRuns.GrantStays | internal/store/api_tokens.go:13-72 | a token that is not itself revoked keeps its hash, creation and expiry in any continuation |
| SessionRuns.LogoutIsFinal | internal/auth/service.go:156-161 | a token that was logged out is accepted at no time by any continuation |
| SessionRuns.SessionAnswer | internal/store/auth.go:57-62 | while its row is there, a session is judged rightly if and only if the texts do not mislead |
| SessionRuns.PurgeIsInvisible | internal/store/auth.go:69-72 | a purge changes no later answer outside the second of expiry |
| SessionRuns.AdministratorIsFinal | internal/store/auth.go:27-49 | once there is an administrator no run replaces it |
| Inbox.OneOrder | internal/store/store.go:281 | ORDER BY received_at DESC, id DESC admits exactly one listing of the selected rows |
| Inbox.FirstPages | internal/store/store.go:278-281 | pages 1 to n concatenate to the first n times page-size rows |
| Inbox.PagesPartition | internal/httpapi/api.go:149-168 | pages 1 to ceil(Total/PageSize) give the whole listing once, and every later page is empty |
| Inbox.MatchingIs | internal/store/store.go:271-281 | the filter selects exactly the messages of the named account, or all for the empty name, each once with its received time |
| Inbox.ListedInOrder | internal/store/store.go:281 | an earlier row of the listing has a later received text, or the same text and a greater identifier |
| Inbox.PagesShowEachOnce | internal/httpapi/api.go:149-168 | all pages together show each message of the named account exactly once, as many as there are such identifiers in the table, and no other |
| Inbox.PageCountIsLeast | internal/httpapi/api.go:149-168 | no smaller number of pages holds all rows |
| Inbox.Reader.ReadRows | internal/store/store.go:287-311 | the row loop returns one item per row in order, or fails exactly when some received or sent time does not parse |
| Inbox.Reader.ListEmails | internal/store/store.go:269-312 | the total is the number of identifiers whose row has the named account, every item belongs to that account, and the items are those of the requested page of the one listing |
| Inbox.ListsExactly | internal/store/store.go:287-311 | in every reachable store a page is listed if and only if all its received and sent times lie in the years 0 to 9999 |
| Inbox.UnreadableMessageBlocksPage | internal/store/store.go:302-308 | a message with any other sent time is stored, and then the page that holds it cannot be listed |
| Inbox.LateMessageBlocksPage | internal/mailparse/parser.go:37-39 | so it is with a message dated 9999-12-31T23:59:59-01:00 |
| Inbox.NewestFirst | internal/store/store.go:281 | in every reachable store the readable rows are listed newest first, to the second |
| MasterKey.Directory.WriteTemp | internal/secure/crypto.go:50-71 | the temporary file holds the whole key when every call succeeded |
| MasterKey.Directory.LoadOrCreateKey | internal/secure/crypto.go:35-87 | succeeds exactly when the stated calls do, returns what the path then holds, never replaces an existing file, and reports creation only for its own key |
| MasterKey.Safety | internal/secure/crypto.go:35-101 | the invariant of the publication holds in every run of any number of processes with crashes at any step |
| MasterKey.PublishedKeyNeverChanges | internal/secure/crypto.go:72-81 | once the path exists it names the same file with the same content for ever |
| MasterKey.AbsentOrComplete | internal/secure/crypto.go:50-81 | a path that did not exist at first is absent or holds a complete 32-byte key |
| MasterKey.SuccessfulCallersAgree | internal/secure/crypto.go:35-101 | all callers that succeed, at any times, return one 32-byte key |
| MasterKey.AtMostOneCreator | internal/secure/crypto.go:72-86 | at most one caller ever reports that it created the key, and none if the path existed at first |
| MasterKey.CallIsPath | internal/secure/crypto.go:35-101 | one call, with any failures and any rival that publishes first, is a run of the machine with the same result and the same published content |
| Throttle.LoginThrottle.LoginAllowed | internal/httpapi/auth.go:203-216 | refuses exactly while blocked, forgets a window that is over, and waiting the advertised seconds is enough |
| Throttle.LoginThrottle.RecordLoginFailure | internal/httpapi/auth.go:218-231 | counts the failure in the running or a new window and blocks for a minute from the fifth on; other clients are untouched |
| Throttle.LoginThrottle.ClearLoginFailures | internal/httpapi/auth.go:233-237 | forgets this client and no other |
| Throttle.LoginThrottle.HandleLogin | internal/httpapi/auth.go:63-90 | one request: refused exactly while blocked, with a delay that is enough; otherwise a wrong password is counted, a success clears the entry, anything else leaves it to the window check |
| Throttle.RetryIsEnough | internal/httpapi/auth.go:207-209 | the advertised delay, truncated and increased by one, always reaches the end of the block, is less than a second too long and at most 61 seconds for a minute |
| Throttle.FailureMeans | internal/httpapi/auth.go:218-231 | in nanoseconds: a failure opens a new window after more than five minutes, else counts in the old one, and blocks for a minute from the fifth on |
| Throttle.AdvertisedDelay | internal/httpapi/auth.go:203-231 | what a blocked client of any run is told lies between 1 and 61 seconds |
| Throttle.StepKeepsInv | internal/httpapi/auth.go:203-237 | with any number k of requests in flight, every check and every verdict keeps the invariant of entry, blocks and counters |
| Throttle.InFlightBound | internal/httpapi/auth.go:203-231 | with at most k requests between check and verdict, no entry ever counts more than 4 + 6k failures |
| Throttle.BoundIsReached | internal/httpapi/auth.go:203-231 | the bound is exact for every k: a run, checks included, reaches 4 + 6k |
| Throttle.BlockGrows | internal/httpapi/auth.go:218-231 | from the fifth failure on, the block reaches a minute into the window for each k failures beyond the fourth |
| Throttle.SerialisedBound | internal/httpapi/auth.go:203-231 | one request at a time, the block reaches (failures - 4) minutes into the window, so there are never more than ten |
| Throttle.FailureBound | internal/httpapi/auth.go:203-237 | within time T of the first failure at most (4 + 6k) * (T/5min + 1) failures are recorded, and 4 + 6k more for each success |
| Throttle.HandlerIsPath | internal/httpapi/auth.go:63-90 | one call of the handler is a check, followed by a verdict unless it was refused, with the same entry afterwards |
| Config.ConfigFile.ReadConfig | skills/paperwing/scripts/configure.py:23-37 | a missing file gives no values; otherwise the line loop gives what reading the lines in order gives, or the splitter's error |
| Config.ConfigFile.WriteConfig | skills/paperwing/scripts/configure.py:57-73 | an error before the replacement leaves the old file and any later one the complete new file; no temporary file stays |
| Config.ConfigFile.Fill | skills/paperwing/scripts/configure.py:63-70 | the file is replaced only after both lines are written |
| ConfigRoundTrip.SplitInvertsQuote | skills/paperwing/scripts/configure.py:34 | for every string, splitting its quoted form gives that string as the only word |
| ConfigRoundTrip.SplitRejectsUnclosed | skills/paperwing/scripts/configure.py:34 | a quoted text cut before its closing quote is an error of the splitter |
| ConfigRoundTrip.DoubleQuotesKeep | skills/paperwing/scripts/configure.py:34 | a value written by hand in double quotes is read literally, backslashes included, unless one stands before a double quote or a backslash |
| ConfigRoundTrip.BackslashKeeps | skills/paperwing/scripts/configure.py:34 | a value written by hand with a backslash before every character is read as those characters |
| ConfigRoundTrip.CarriageReturnLineFeed | skills/paperwing/scripts/configure.py:27 | a carriage return and a line feed together end exactly one line |
| ConfigLines.SplitInvertsSpaced | skills/paperwing/scripts/configure.py:34 | for every list of strings, splitting their quoted forms with a blank after each gives exactly that list |
| ConfigLines.StripIs | skills/paperwing/scripts/configure.py:28 | stripping removes the spaces at both ends, all of them, and nothing else |
| ConfigLines.LineSkipped | skills/paperwing/scripts/configure.py:28-30 | an empty line, a comment and a line without an equals sign change no value |
| ConfigLines.LineMeans | skills/paperwing/scripts/configure.py:28-36 | a line sets the value it names if what follows the first equals sign is exactly one word, changes nothing for other names or another number of words, and fails on an unclosed quote |
| ConfigLines.LinesAre | skills/paperwing/scripts/configure.py:27 | a line ends at its first separator or at the end of the text; carriage return and line feed together are one |
| ConfigLines.LinesInOrder | skills/paperwing/scripts/configure.py:27-37 | the lines of two parts are read in order, each over what the ones before it gave, until one is an error |
| ConfigLines.LastLineWins | skills/paperwing/scripts/configure.py:34-36 | the last line that sets a value decides |
| ConfigLines.WrittenText | skills/paperwing/scripts/configure.py:67-68 | the text of the file for a URL and a token of safe characters |
| ConfigRoundTrip.RoundTrip | skills/paperwing/scripts/configure.py:23-68 | reading after writing gives exactly the two values if neither has a line separator, and fails otherwise |

## Left out

- The IMAP wire protocol, TLS, dialling, login and `TestConnection`: only the success or failure of each call remains.
- MIME decoding, character sets, addresses, headers and the columns they fill: parsing a message is an input that may fail.
- A message without an internal date: the parser puts the clock's reading in its place, so the received time of a fetch is the time after that choice.
- Contents of attachment files: only which files exist is modelled, so a file that is being rewritten counts as present.
- The order of the search result: the library is taken to return it ascending; `Convergence.SafeOrders` says what the loop needs.
- A UIDVALIDITY that returns to an earlier value, which RFC 3501 excludes.
- Status texts, `last_successful_sync_at`, timers and the growing reconnect delay: they do not influence the modelled state.
- Liveness of `Sync` against a worker that has exited: the wait ends only through the caller's context.
- `Close` is modelled only as the step that cancels every worker.
- Reading the connection settings of an account: `AccountSecret` keeps the cursor only, and its decryption errors appear as a worker that does not start.
- ParseTime: reads the form that `formatTime` writes, not numeric offsets or a comma before the fraction, because no stored time has them.
- Sessions: the guard for an empty token, scopes and names of API tokens, listing them, clock readings outside the years 0 to 9999 and a clock that falls behind an earlier purge.
- Throttle: the limit k on requests in flight is a parameter, because the program sets none.
- RowsPointAtFiles: excludes runs with a failed copy over a stored attachment; `Attachments.FilesLostOnlyByFailedCopies` shows that they lose a file.
- DeletedFilesStayAway: needs that no start of the account was due; `LifecycleRuns.FileFreeExactly` shows that a file can stay exactly otherwise.
- The master key file being deleted or replaced from outside.
- `normalize_url`, `validate_token` and the prompts of the configuration script; encoding errors of the file.
- Argon2, AES-GCM, HTTP routing, JSON, cookies, the frontend, account input validation and environment configuration.
