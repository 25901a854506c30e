/** Browser sessions and API tokens, whose expiry the database compares as text. */
module Sessions {
  import opened Results
  import opened Text
  import opened TimeText

  const SESSION_SECONDS: nat := 30 * 24 * 3600

  datatype User = User(username: string, passwordHash: string)

  /** A row of api_tokens: expiresAt holds the creation time of a token that never expires. */
  datatype Token = Token(hash: string, expiresAt: string, neverExpires: bool, lastUsedAt: Option<string>)

  /** auth_user, auth_sessions (token hash to expires_at) and api_tokens by id. */
  datatype Tables = Tables(user: Option<User>, sessions: map<string, string>, tokens: map<string, Token>)

  /** How instants are written as text. */
  type Format = Instant -> string

  /** An instant and the text that is stored for it. */
  datatype Stamp = Stamp(at: Instant, text: string) {
    /** Written in this format from a clock reading of the years 0 to 9999. */
    predicate In(format: Format) { at.Valid() && text == format(at) }

    predicate Ok() { In(FormatTime) }
  }

  function Written(t: Instant): Stamp { Stamp(t, FormatTime(t)) }

  function WrittenOption(t: Option<Instant>): Option<Stamp> {
    if t.None? then None else Some(Written(t.value))
  }

  // ----- text expiry against real expiry -----

  predicate ExpiresAfter(expiresAt: string, now: Instant) { Less(FormatTime(now), expiresAt) }

  /** The earlier fraction's digits begin the later one's, within one second: text and time disagree. */
  predicate TextMisleads(a: Instant, b: Instant) {
    a.sec == b.sec && ((a.ns < b.ns && Fraction(a.ns) <= Fraction(b.ns)) || (b.ns < a.ns && Fraction(b.ns) <= Fraction(a.ns)))
  }

  /** A stored expiry is judged rightly exactly when the texts do not mislead. */
  lemma ExpiryJudgement(expires: Instant, now: Instant)
    requires expires.Valid() && now.Valid()
    ensures (ExpiresAfter(FormatTime(expires), now) <==> now.Before(expires)) <==> !TextMisleads(now, expires)
    ensures now.sec != expires.sec ==> !TextMisleads(now, expires)
  {
    if now.sec != expires.sec {
      TextOrderAcrossSeconds(now, expires);
    } else if now.ns < expires.ns {
      TextOrderWithinSecond(now, expires);
    } else if expires.ns < now.ns {
      TextOrderWithinSecond(expires, now);
    } else {
      LessIrreflexive(FormatTime(now));
    }
  }

  predicate SessionValid(t: Tables, hash: string, now: Instant) {
    hash in t.sessions && ExpiresAfter(t.sessions[hash], now)
  }

  predicate TokenAccepted(token: Token, now: Instant) {
    token.neverExpires || ExpiresAfter(token.expiresAt, now)
  }

  function StoredExpiration(createdAt: Stamp, expiresAt: Option<Stamp>): string {
    if expiresAt.Some? then expiresAt.value.text else createdAt.text
  }

  /** An API token with an expiry is accepted until it, to the second; one without is always accepted. */
  lemma TokenJudgement(createdAt: Stamp, expiresAt: Option<Stamp>, token: Token, now: Instant)
    requires now.Valid() && (expiresAt.Some? ==> expiresAt.value.Ok())
    requires token.expiresAt == StoredExpiration(createdAt, expiresAt) && token.neverExpires == expiresAt.None?
    ensures expiresAt.None? ==> TokenAccepted(token, now)
    ensures expiresAt.Some? ==>
      ((TokenAccepted(token, now) <==> now.Before(expiresAt.value.at)) <==> !TextMisleads(now, expiresAt.value.at))
  {
    if expiresAt.Some? { ExpiryJudgement(expiresAt.value.at, now); }
  }

  // ----- runs of setup, login, logout, purge, and of issuing, using and revoking tokens -----

  /** What an API token was issued for, and its latest recorded use. */
  datatype Grant = Grant(hash: string, createdAt: Stamp, expiresAt: Option<Stamp>, lastUsed: Option<Stamp>)

  /** The tables, and beside them sessions and tokens by real time, whatever was purged. */
  datatype State = State(
    tables: Tables,
    live: map<string, Stamp>,
    issued: set<string>,     // session tokens drawn so far
    purgedSec: int,          // the latest second of any purge so far
    grants: map<string, Grant>)

  datatype Op =
    | Setup(user: User, hash: string, expires: Stamp)
    | Save(hash: string, expires: Stamp)
    | Logout(hash: string)
    | Purge(now: Stamp)
    | Issue(id: string, hash: string, createdAt: Stamp, expiresAt: Option<Stamp>)
    | Use(id: string, at: Stamp, earlier: Stamp)     // earlier is five minutes before
    | Revoke(id: string)

  const EMPTY: State := State(Tables(None, map[], map[]), map[], {}, 0, map[])

  function Purged(t: Tables, now: string): Tables {
    t.(sessions := map h | h in t.sessions && Less(now, t.sessions[h]) :: t.sessions[h])
  }

  function Opened(s: State, hash: string, expires: Stamp): State {
    s.(tables := s.tables.(sessions := s.tables.sessions[hash := expires.text]),
       live := s.live[hash := expires], issued := s.issued + {hash})
  }

  /** No use is recorded, or the recorded text sorts before that of five minutes ago. */
  predicate UseIsOld(token: Token, earlier: string) {
    token.lastUsedAt.None? || Less(token.lastUsedAt.value, earlier)
  }

  predicate HashTaken(tokens: map<string, Token>, hash: string) {
    exists t :: t in tokens && tokens[t].hash == hash
  }

  function Issued(s: State, id: string, hash: string, createdAt: Stamp, expiresAt: Option<Stamp>): State {
    var token := Token(hash, StoredExpiration(createdAt, expiresAt), expiresAt.None?, None);
    s.(tables := s.tables.(tokens := s.tables.tokens[id := token]),
       grants := s.grants[id := Grant(hash, createdAt, expiresAt, None)])
  }

  function Used(s: State, id: string, at: Stamp): State
    requires id in s.tables.tokens && id in s.grants
  {
    s.(tables := s.tables.(tokens := s.tables.tokens[id := s.tables.tokens[id].(lastUsedAt := Some(at.text))]),
       grants := s.grants[id := s.grants[id].(lastUsed := Some(at))])
  }

  function Revoked(s: State, id: string): State {
    s.(tables := s.tables.(tokens := map t | t in s.tables.tokens && t != id :: s.tables.tokens[t]),
       grants := map g | g in s.grants && g != id :: s.grants[g])
  }

  function LoggedOut(s: State, hash: string): State {
    s.(tables := s.tables.(sessions := map h | h in s.tables.sessions && h != hash :: s.tables.sessions[h]),
       live := map h | h in s.live && h != hash :: s.live[h])
  }

  function Next(s: State, op: Op): State {
    match op
    case Setup(user, hash, expires) =>
      if s.tables.user.Some? || hash in s.tables.sessions then s.(issued := s.issued + {hash})
      else
        var t := Opened(s, hash, expires);
        t.(tables := t.tables.(user := Some(user)))
    case Save(hash, expires) =>
      if hash in s.tables.sessions then s.(issued := s.issued + {hash}) else Opened(s, hash, expires)
    case Logout(hash) => LoggedOut(s, hash)
    case Purge(now) =>
      s.(tables := Purged(s.tables, now.text), purgedSec := if s.purgedSec < now.at.sec then now.at.sec else s.purgedSec)
    case Issue(id, hash, createdAt, expiresAt) =>
      if id in s.tables.tokens || HashTaken(s.tables.tokens, hash) then s else Issued(s, id, hash, createdAt, expiresAt)
    case Use(id, at, earlier) =>
      if id in s.tables.tokens && id in s.grants && UseIsOld(s.tables.tokens[id], earlier.text) then Used(s, id, at) else s
    case Revoke(id) => Revoked(s, id)
  }

  // ----- the invariant of runs -----

  predicate TokenIs(token: Token, g: Grant) {
    && token.hash == g.hash && token.neverExpires == g.expiresAt.None?
    && token.expiresAt == StoredExpiration(g.createdAt, g.expiresAt)
    && token.lastUsedAt == (if g.lastUsed.None? then None else Some(g.lastUsed.value.text))
  }

  predicate SessionsOk(s: State) {
    && (forall h :: h in s.tables.sessions ==> h in s.live && s.tables.sessions[h] == s.live[h].text)
    && (forall h :: h in s.live ==> h in s.issued)
    && (forall h :: h in s.live && h !in s.tables.sessions ==> s.live[h].at.sec <= s.purgedSec)
  }

  predicate TokensOk(s: State) {
    && s.tables.tokens.Keys == s.grants.Keys
    && (forall id :: id in s.grants ==> TokenIs(s.tables.tokens[id], s.grants[id]))
    && (forall i, j :: i in s.grants && j in s.grants && s.grants[i].hash == s.grants[j].hash ==> i == j)
  }

  predicate GrantIn(f: Format, g: Grant) {
    g.createdAt.In(f) && (g.expiresAt.Some? ==> g.expiresAt.value.In(f)) && (g.lastUsed.Some? ==> g.lastUsed.value.In(f))
  }

  predicate LiveIn(f: Format, live: map<string, Stamp>) { forall h :: h in live ==> live[h].In(f) }

  predicate GrantsIn(f: Format, grants: map<string, Grant>) { forall id :: id in grants ==> GrantIn(f, grants[id]) }

  predicate StampsIn(f: Format, s: State) { LiveIn(f, s.live) && GrantsIn(f, s.grants) }

  predicate InvIn(f: Format, s: State) { SessionsOk(s) && TokensOk(s) && StampsIn(f, s) }

  predicate Inv(s: State) { InvIn(FormatTime, s) }

  predicate TimesIn(f: Format, op: Op) {
    match op
    case Setup(_, _, expires) => expires.In(f)
    case Save(_, expires) => expires.In(f)
    case Purge(now) => now.In(f)
    case Issue(_, _, createdAt, expiresAt) => createdAt.In(f) && (expiresAt.Some? ==> expiresAt.value.In(f))
    case Use(_, at, earlier) => at.In(f) && earlier.In(f)
    case _ => true
  }

  predicate Fresh(s: State, op: Op) {
    (op.Setup? || op.Save?) ==> op.hash !in s.issued
  }

  /** Session tokens are fresh random values. */
  predicate Enabled(s: State, op: Op) { TimesIn(FormatTime, op) && Fresh(s, op) }

  /** Texts sort as times across seconds. */
  ghost predicate SortsAcrossSeconds(f: Format) {
    forall a: Instant, b: Instant :: a.Valid() && b.Valid() && a.sec < b.sec ==> Less(f(a), f(b))
  }

  lemma FormatSorts()
    ensures SortsAcrossSeconds(FormatTime)
  {
    forall a: Instant, b: Instant | a.Valid() && b.Valid() && a.sec < b.sec ensures Less(FormatTime(a), FormatTime(b)) {
      TextOrderAcrossSeconds(a, b);
    }
  }

  lemma PurgeKeepsSessions(f: Format, s: State, now: Stamp)
    requires SortsAcrossSeconds(f) && SessionsOk(s) && LiveIn(f, s.live) && now.In(f)
    ensures SessionsOk(Next(s, Purge(now)))
  {
    var s' := Next(s, Purge(now));
    forall h | h in s'.live && h !in s'.tables.sessions ensures s'.live[h].at.sec <= s'.purgedSec {
      if h in s.tables.sessions { assert s.live[h].In(f); }
    }
  }

  lemma StepKeepsSessions(s: State, op: Op)
    requires SessionsOk(s) && !op.Purge?
    ensures SessionsOk(Next(s, op))
  {
  }

  lemma IssueKeepsTokens(s: State, op: Op)
    requires TokensOk(s) && op.Issue?
    ensures TokensOk(Next(s, op))
  {
    if Next(s, op) != s {
      forall i | i in s.grants ensures s.grants[i].hash != op.hash { assert TokenIs(s.tables.tokens[i], s.grants[i]); }
    }
  }

  lemma StepKeepsTokens(s: State, op: Op)
    requires TokensOk(s)
    ensures TokensOk(Next(s, op))
  {
    if op.Issue? { IssueKeepsTokens(s, op); }
  }

  lemma StepKeepsStamps(f: Format, s: State, op: Op)
    requires StampsIn(f, s) && TimesIn(f, op)
    ensures StampsIn(f, Next(s, op))
  {
  }

  lemma StepKeepsInvIn(f: Format, s: State, op: Op)
    requires SortsAcrossSeconds(f) && InvIn(f, s) && TimesIn(f, op)
    ensures InvIn(f, Next(s, op))
  {
    if op.Purge? { PurgeKeepsSessions(f, s, op.now); } else { StepKeepsSessions(s, op); }
    StepKeepsTokens(s, op);
    StepKeepsStamps(f, s, op);
  }

  lemma StepKeepsInv(s: State, op: Op)
    requires Inv(s) && TimesIn(FormatTime, op)
    ensures Inv(Next(s, op))
  {
    FormatSorts();
    StepKeepsInvIn(FormatTime, s, op);
  }

  // ----- what answers mean -----

  predicate IsLive(s: State, hash: string, now: Instant) {
    hash in s.live && now.Before(s.live[hash].at)
  }

  /** The clock is not behind an earlier purge and not in the second in which the session expires. */
  predicate SettledFor(s: State, hash: string, now: Instant) {
    now.Valid() && s.purgedSec <= now.sec && (hash in s.live ==> s.live[hash].at.sec != now.sec)
  }

  lemma ValidIsLive(s: State, hash: string, now: Instant)
    requires Inv(s) && SettledFor(s, hash, now)
    ensures SessionValid(s.tables, hash, now) <==> IsLive(s, hash, now)
  {
    if hash in s.live { ExpiryJudgement(s.live[hash].at, now); }
  }

  /** Some issued and not revoked token with this hash has not expired. */
  predicate Granted(s: State, hash: string, now: Instant) {
    exists id :: id in s.grants && s.grants[id].hash == hash
      && (s.grants[id].expiresAt.None? || now.Before(s.grants[id].expiresAt.value.at))
  }

  predicate TokenFound(t: Tables, hash: string, now: Instant) {
    exists id :: id in t.tokens && t.tokens[id].hash == hash && TokenAccepted(t.tokens[id], now)
  }

  predicate ExpiryElsewhere(g: Grant, now: Instant) {
    g.expiresAt.Some? ==> g.expiresAt.value.at.sec != now.sec
  }

  lemma GrantJudgement(s: State, id: string, now: Instant)
    requires Inv(s) && now.Valid() && id in s.grants && ExpiryElsewhere(s.grants[id], now)
    ensures TokenAccepted(s.tables.tokens[id], now) <==>
      (s.grants[id].expiresAt.None? || now.Before(s.grants[id].expiresAt.value.at))
  {
    var g := s.grants[id];
    TokenJudgement(g.createdAt, g.expiresAt, s.tables.tokens[id], now);
    if g.expiresAt.Some? { ExpiryJudgement(g.expiresAt.value.at, now); }
  }

  /** No token with this hash expires in this very second. */
  predicate TokensSettledFor(s: State, hash: string, now: Instant) {
    now.Valid() && forall id :: id in s.grants && s.grants[id].hash == hash ==> ExpiryElsewhere(s.grants[id], now)
  }

  lemma FoundIsGranted(s: State, hash: string, now: Instant)
    requires Inv(s) && TokensSettledFor(s, hash, now)
    ensures TokenFound(s.tables, hash, now) <==> Granted(s, hash, now)
  {
    forall id | id in s.grants && s.grants[id].hash == hash
      ensures TokenAccepted(s.tables.tokens[id], now) <==>
        (s.grants[id].expiresAt.None? || now.Before(s.grants[id].expiresAt.value.at))
    {
      GrantJudgement(s, id, now);
    }
    assert forall id :: id in s.grants ==> TokenIs(s.tables.tokens[id], s.grants[id]);
  }

  /** The recorded use is this one, or at most five minutes older, to the second. */
  predicate RecentlyUsed(g: Grant, at: Instant) {
    g.lastUsed.Some? && (g.lastUsed.value.at == at || at.sec - 300 <= g.lastUsed.value.at.sec)
  }

  lemma UseEffect(s: State, id: string, at: Stamp, earlier: Stamp)
    requires TokensOk(s) && id in s.grants
    ensures var last := s.grants[id].lastUsed;
      Next(s, Use(id, at, earlier)) ==
        if last.None? || Less(last.value.text, earlier.text) then Used(s, id, at) else s
  {
    assert TokenIs(s.tables.tokens[id], s.grants[id]);
  }

  /** A use is recorded unless one of the last five minutes is, and only an older one is overwritten. */
  lemma UseIsRecordedIn(f: Format, s: State, id: string, at: Stamp, earlier: Stamp)
    requires SortsAcrossSeconds(f) && InvIn(f, s) && id in s.grants && earlier.In(f) && earlier.at.sec == at.at.sec - 300
    ensures id in Next(s, Use(id, at, earlier)).grants && RecentlyUsed(Next(s, Use(id, at, earlier)).grants[id], at.at)
    ensures s.grants[id].lastUsed.Some? && at.at.sec - 300 < s.grants[id].lastUsed.value.at.sec ==>
      Next(s, Use(id, at, earlier)) == s
  {
    UseEffect(s, id, at, earlier);
    assert GrantIn(f, s.grants[id]);
    if s.grants[id].lastUsed.Some? && Less(s.grants[id].lastUsed.value.text, earlier.text) {
      LessIrreflexive(earlier.text);
      if earlier.at.sec < s.grants[id].lastUsed.value.at.sec { LessAsymmetric(earlier.text, s.grants[id].lastUsed.value.text); }
    }
  }

  lemma UseIsRecorded(s: State, id: string, at: Stamp, earlier: Stamp)
    requires Inv(s) && id in s.grants && earlier.Ok() && earlier.at.sec == at.at.sec - 300
    ensures id in Next(s, Use(id, at, earlier)).grants && RecentlyUsed(Next(s, Use(id, at, earlier)).grants[id], at.at)
    ensures s.grants[id].lastUsed.Some? && at.at.sec - 300 < s.grants[id].lastUsed.value.at.sec ==>
      Next(s, Use(id, at, earlier)) == s
  {
    FormatSorts();
    UseIsRecordedIn(FormatTime, s, id, at, earlier);
  }

  // ----- the object -----

  datatype SetupResult = Done | AlreadyConfigured | Rejected
  datatype LoginResult = LoggedIn | InvalidCredentials | InternalError

  function SessionExpiry(now: Instant): Instant {
    Instant(now.sec + SESSION_SECONDS, now.ns)
  }

  /** A session lasts thirty days, to the second. */
  lemma ThirtyDays(now: Instant, t: Instant)
    requires t.Valid() && SessionExpiry(now).Valid()
    ensures t.sec < now.sec + 2_592_000 ==> ExpiresAfter(FormatTime(SessionExpiry(now)), t)
    ensures now.sec + 2_592_000 < t.sec ==> !ExpiresAfter(FormatTime(SessionExpiry(now)), t)
  {
    if t.sec != now.sec + 2_592_000 { TextOrderAcrossSeconds(t, SessionExpiry(now)); }
  }

  function Minus(t: Instant, seconds: nat): Instant { Instant(t.sec - seconds, t.ns) }

  function TouchOp(id: string, usedAt: Instant): Op {
    Use(id, Written(usedAt), Written(Minus(usedAt, 300)))
  }

  lemma TouchIsRecorded(s: State, id: string, usedAt: Instant)
    requires Inv(s) && id in s.grants && Minus(usedAt, 300).Valid()
    ensures id in Next(s, TouchOp(id, usedAt)).grants && RecentlyUsed(Next(s, TouchOp(id, usedAt)).grants[id], usedAt)
  {
    UseIsRecorded(s, id, Written(usedAt), Written(Minus(usedAt, 300)));
  }

  class AuthStore {
    var user: Option<User>
    var sessions: map<string, string>
    var tokens: map<string, Token>
    ghost var history: State     // the state of the run that the calls so far make

    function Rows(): Tables
      reads this
    {
      Tables(user, sessions, tokens)
    }

    /** The tables are those of the run, and tokens and grants have the same identifiers. */
    ghost predicate Valid()
      reads this
    {
      history.tables == Rows() && tokens.Keys == history.grants.Keys
    }

    constructor ()
      ensures Valid() && history == EMPTY
    {
      user, sessions, tokens := None, map[], map[];
      history := EMPTY;
    }

    /** The first administrator and its session in one transaction; never twice. */
    method SetupAuth(newUser: User, hash: string, expiresAt: Instant, fault: Fault) returns (r: SetupResult)
      requires Valid()
      modifies this
      ensures Valid() && history == Committed(old(history), Next(old(history), Setup(newUser, hash, Written(expiresAt))), fault)
      ensures r == AlreadyConfigured ==> old(user).Some?
      ensures r == Done ==> old(user).None? && user == Some(newUser) && hash in sessions && hash !in old(sessions)
      ensures fault == Works ==> (r == Done <==> old(user).None? && hash !in old(sessions))
      ensures old(user).Some? ==> user == old(user) && sessions == old(sessions)
      ensures r == Done ==> sessions == old(sessions)[hash := FormatTime(expiresAt)]
      ensures tokens == old(tokens)
    {
      if fault == FailsBefore { return Rejected; }
      history := Next(history, Setup(newUser, hash, Written(expiresAt)));
      if user.Some? { return if fault == Works then AlreadyConfigured else Rejected; }
      if hash in sessions { return Rejected; }
      user, sessions := Some(newUser), sessions[hash := FormatTime(expiresAt)];
      return if fault == Works then Done else Rejected;
    }

    method SaveAuthSession(hash: string, expiresAt: Instant, fault: Fault) returns (ok: bool)
      requires Valid()
      modifies this
      ensures Valid() && history == Committed(old(history), Next(old(history), Save(hash, Written(expiresAt))), fault)
      ensures ok == (fault == Works && hash !in old(sessions))
      ensures ok ==> sessions == old(sessions)[hash := FormatTime(expiresAt)]
      ensures user == old(user) && tokens == old(tokens)
    {
      if fault == FailsBefore { return false; }
      history := Next(history, Save(hash, Written(expiresAt)));
      if hash in sessions { return false; }
      sessions := sessions[hash := FormatTime(expiresAt)];
      return fault == Works;
    }

    /** The answer is that of real time, outside the second of expiry. */
    method AuthSessionValid(hash: string, now: Instant) returns (valid: bool)
      requires Valid()
      ensures valid == SessionValid(Rows(), hash, now)
      ensures Inv(history) && SettledFor(history, hash, now) ==> (valid <==> IsLive(history, hash, now))
    {
      valid := hash in sessions && ExpiresAfter(sessions[hash], now);
      if Inv(history) && SettledFor(history, hash, now) { ValidIsLive(history, hash, now); }
    }

    method DeleteAuthSession(hash: string, fault: Fault) returns (ok: bool)
      requires Valid()
      modifies this
      ensures Valid() && history == Committed(old(history), Next(old(history), Logout(hash)), fault)
      ensures ok == (fault == Works)
      ensures ok ==> hash !in history.live && hash !in sessions
      ensures forall h :: h != hash ==> (h in sessions <==> h in old(sessions)) && (h in sessions ==> sessions[h] == old(sessions)[h])
      ensures user == old(user) && tokens == old(tokens)
    {
      if fault == FailsBefore { return false; }
      history := Next(history, Logout(hash));
      sessions := map h | h in sessions && h != hash :: sessions[h];
      return fault == Works;
    }

    method DeleteExpiredAuthSessions(now: Instant, fault: Fault) returns (ok: bool)
      requires Valid()
      modifies this
      ensures Valid() && history == Committed(old(history), Next(old(history), Purge(Written(now))), fault)
      ensures ok == (fault == Works)
      ensures user == old(user) && tokens == old(tokens)
      ensures ok ==> forall h :: h in sessions <==> SessionValid(old(Rows()), h, now)
      ensures forall h :: h in sessions ==> h in old(sessions) && sessions[h] == old(sessions)[h]
      ensures forall h :: SessionValid(old(Rows()), h, now) ==> h in sessions
    {
      if fault == FailsBefore { return false; }
      history := Next(history, Purge(Written(now)));
      sessions := map h | h in sessions && ExpiresAfter(sessions[h], now) :: sessions[h];
      return fault == Works;
    }

    /** Saves the session, and then purges expired ones; a failing purge is ignored. */
    method Open(hash: string, now: Instant, save: Fault, purge: Fault) returns (ok: bool)
      requires Valid()
      modifies this
      ensures Valid() && user == old(user)
      ensures ok == (save == Works && hash !in old(sessions))
      ensures var saved := Next(old(history), Save(hash, Written(SessionExpiry(now))));
        history == if ok then Committed(saved, Next(saved, Purge(Written(now))), purge) else Committed(old(history), saved, save)
      ensures ok && now.Valid() && SessionExpiry(now).Valid() ==>
        hash in sessions && sessions[hash] == FormatTime(SessionExpiry(now))
    {
      ok := SaveAuthSession(hash, SessionExpiry(now), save);
      if ok {
        if now.Valid() && SessionExpiry(now).Valid() { ThirtyDays(now, now); }
        var _ := DeleteExpiredAuthSessions(now, purge);
      }
    }

    /**
      Service.Login: reading the administrator, checking the credentials, drawing a token, and opening its
      session for thirty days.
     */
    method Login(loads: bool, matches: bool, draws: bool, hash: string, now: Instant, save: Fault, purge: Fault)
      returns (r: LoginResult)
      requires Valid()
      modifies this
      ensures Valid() && user == old(user)
      ensures r == LoggedIn <==> loads && old(user).Some? && matches && draws && save == Works && hash !in old(sessions)
      ensures r == InvalidCredentials <==> loads && (old(user).None? || !matches)
      ensures r == LoggedIn ==>
        var saved := Next(old(history), Save(hash, Written(SessionExpiry(now))));
        history == Committed(saved, Next(saved, Purge(Written(now))), purge)
      ensures r == LoggedIn && now.Valid() && SessionExpiry(now).Valid() ==>
        hash in sessions && sessions[hash] == FormatTime(SessionExpiry(now))
      ensures r == InvalidCredentials ==> history == old(history)
      ensures r == InternalError ==>
        history == old(history) || history == Next(old(history), Save(hash, Written(SessionExpiry(now))))
    {
      if !loads { return InternalError; }
      if user.None? || !matches { return InvalidCredentials; }
      if !draws { return InternalError; }
      var ok := Open(hash, now, save, purge);
      return if ok then LoggedIn else InternalError;
    }

    method SaveAPIToken(id: string, hash: string, createdAt: Instant, expiresAt: Option<Instant>, fault: Fault)
      returns (ok: bool)
      requires Valid()
      modifies this
      ensures Valid() && history == Committed(old(history), Next(old(history), Issue(id, hash, Written(createdAt), WrittenOption(expiresAt))), fault)
      ensures ok == (fault == Works && id !in old(tokens) && !HashTaken(old(tokens), hash))
      ensures ok ==> history.grants == old(history.grants)[id := Grant(hash, Written(createdAt), WrittenOption(expiresAt), None)]
      ensures ok ==> forall t :: t in tokens <==> t in old(tokens) || t == id
      ensures forall t :: t in old(tokens) ==> t in tokens && tokens[t] == old(tokens)[t]
      ensures user == old(user) && sessions == old(sessions)
    {
      if fault == FailsBefore { return false; }
      history := Next(history, Issue(id, hash, Written(createdAt), WrittenOption(expiresAt)));
      if id in tokens || HashTaken(tokens, hash) { return false; }
      tokens := tokens[id := Token(hash, FormatTime(if expiresAt.Some? then expiresAt.value else createdAt), expiresAt.None?, None)];
      return fault == Works;
    }

    /** The token with this hash, unless it has expired; outside the second of expiry, by real time. */
    method APITokenByHash(hash: string, now: Instant) returns (id: Option<string>)
      requires Valid()
      ensures id.Some? ==> id.value in tokens && tokens[id.value].hash == hash && TokenAccepted(tokens[id.value], now)
      ensures id.None? ==> !TokenFound(Rows(), hash, now)
      ensures Inv(history) && TokensSettledFor(history, hash, now) ==> (id.Some? <==> Granted(history, hash, now))
    {
      if Inv(history) && TokensSettledFor(history, hash, now) { FoundIsGranted(history, hash, now); }
      var found := set t | t in tokens && tokens[t].hash == hash && TokenAccepted(tokens[t], now);
      if found == {} {
        assert forall t :: t in tokens && tokens[t].hash == hash && TokenAccepted(tokens[t], now) ==> t in found;
        return None;
      }
      var t :| t in found;
      return Some(t);
    }

    /** The statement, on the two times as text. */
    method Touch(id: string, at: Stamp, earlier: Stamp, fault: Fault) returns (ok: bool)
      requires Valid()
      modifies this
      ensures Valid() && history == Committed(old(history), Next(old(history), Use(id, at, earlier)), fault)
      ensures ok == (fault == Works)
      ensures tokens.Keys == old(tokens).Keys && user == old(user) && sessions == old(sessions)
      ensures forall t :: t in tokens ==> tokens[t].(lastUsedAt := None) == old(tokens)[t].(lastUsedAt := None)
      ensures forall t :: t in tokens && t != id ==> tokens[t] == old(tokens)[t]
    {
      if fault == FailsBefore { return false; }
      history := Next(history, Use(id, at, earlier));
      if id in tokens && (tokens[id].lastUsedAt.None? || Less(tokens[id].lastUsedAt.value, earlier.text)) {
        tokens := tokens[id := tokens[id].(lastUsedAt := Some(at.text))];
      }
      return fault == Works;
    }

    /** Afterwards the recorded use is this one, or at most five minutes older. */
    method TouchAPIToken(id: string, usedAt: Instant, fault: Fault) returns (ok: bool)
      requires Valid()
      modifies this
      ensures Valid() && history == Committed(old(history), Next(old(history), TouchOp(id, usedAt)), fault)
      ensures ok == (fault == Works)
      ensures tokens.Keys == old(tokens).Keys && user == old(user) && sessions == old(sessions)
      ensures forall t :: t in tokens ==> tokens[t].(lastUsedAt := None) == old(tokens)[t].(lastUsedAt := None)
      ensures forall t :: t in tokens && t != id ==> tokens[t] == old(tokens)[t]
      ensures ok && Inv(old(history)) && id in old(history).grants && Minus(usedAt, 300).Valid() ==>
        id in history.grants && RecentlyUsed(history.grants[id], usedAt)
    {
      if Inv(history) && id in history.grants && Minus(usedAt, 300).Valid() { TouchIsRecorded(history, id, usedAt); }
      ok := Touch(id, Written(usedAt), Written(Minus(usedAt, 300)), fault);
    }

    /** Fails with not found when nothing was deleted. */
    method DeleteAPIToken(id: string, fault: Fault) returns (ok: bool)
      requires Valid()
      modifies this
      ensures Valid() && history == Committed(old(history), Next(old(history), Revoke(id)), fault)
      ensures ok == (fault == Works && id in old(tokens))
      ensures ok ==> id !in tokens && id !in history.grants
      ensures forall t :: t != id ==> (t in tokens <==> t in old(tokens)) && (t in tokens ==> tokens[t] == old(tokens)[t])
      ensures user == old(user) && sessions == old(sessions)
    {
      if fault == FailsBefore { return false; }
      history := Next(history, Revoke(id));
      ok := fault == Works && id in tokens;
      tokens := map t | t in tokens && t != id :: tokens[t];
    }
  }
}
